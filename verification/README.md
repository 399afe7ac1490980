# packetio in Dafny

packetio moves fixed-size frames between free lists, an application and a network
card. This project models the parts of it where a mistake would lose a frame, hand
one to two owners, put the wrong bytes on the wire or deliver the wrong packets, and
proves what holds of them over every input and every run.

| component | modules |
|---|---|
| free list, with and without the checking bitmap | `Pool` |
| address ring shared with the driver, 32-bit indices | `Rings` |
| mbuf headers, DPDK queues | `Mbuf`, `QueueSpec`, `Queues` |
| who holds each frame, over every run of a DPDK device | `Ownership`, `OwnershipProofs`, `OwnershipRuns`, `OwnershipWitness`, `DeviceOpen` |
| TPACKET_V3 receive ring, its protocol with the kernel, receive queue | `Tpacket`, `TpacketLayout`, `TpacketProtocol`, `RxBatch`, `RxSpread`, `RxRing`, `RxQueue`, `RxWire` |
| checksum completion | `Checksum`, `Csum`, `CsumFrames` |
| AF_PACKET transmit queue, the kernel it talks to, its machine | `AfFrames`, `AfKernel`, `AfTxSpec`, `AfGatherSpec`, `AfTx`, `AfTxRuns`, `AfTxSteps` |
| software segmentation and the transmit loop | `Inet`, `Gso`, `Segmenter`, `NetTx`, `NetFrames`, `NetWrite` |
| steering filters | `Steering` |
| neighbour table | `Neighbors` |

`Words`, `Bytes` and `Offloads` hold what several of them need. `dafny verify
dfyconfig.toml` checks everything.

## How it is modelled

- Code that changes things in place is a class or a method over an array, proved
  against functions on values; the theorems over runs are about machines whose steps
  are those functions. `AfTxSteps` and `RxRing` show that the methods take the steps
  of `AfTxRuns` and `TpacketProtocol`.
- The driver, the kernel, the device and the build callback are arbitrary: a driver
  answer, a kernel answer per system call, a round of the device, a function giving
  what a callback returns and writes. An honest driver is spelled out in
  `Ownership.Enabled`.
- The other side of each interface is written on its own, in byte offsets and numbers:
  the block the kernel lays out (`TpacketLayout`), the frame a sender makes
  (`CsumFrames.Made`), what the driver leaves in a header (`QueueSpec.Left`), the errno
  values that end a conversation (`AfKernel.Because`), the pseudo header of section
  3.1 of RFC 9293 (`Inet.PseudoBytes`).
- Go's wrapping arithmetic is written out where it can happen (`Words.Wrap32`, the
  64-bit test in `QueueSpec.DescOK`, the 32-bit accumulator in `Csum`).
- `checksum.Checksum` and `Combine` of the vendored network stack are the folded sums
  of section 1 of RFC 1071.
- The queue classes keep the free list as a sequence and change it with the functions
  `Pool.Frames` is proved to compute.
- Where a comment of the source disagrees with its code, the code is followed: the
  note in `dpdk/internal/eal/shim.c:86-88` says the returned ring is sized from the
  queue depth, while `dpdk/device.go:511` sizes it from the frame count.

## Findings

Properties that turn out false of the code, each with an input and the exact condition.

- A returned ring sized from a queue's own frames covers every batch it can be sent
  iff it is at least as large as the depth or as the region: `OwnershipRuns.RingCoversIff`.
  `DeviceOpen.RingCanBeTooSmall` gives a device for which it is not. The run theorems
  hold for both kinds of queue, since those with a small ring carry own frames only.
- `Complete` on a queue that has drained another queue's frame loses it; it keeps every
  frame iff all it drains are its own: `OwnershipRuns.CompleteKeepsIff`, with a
  three-step run on any device with two transmit queues in
  `OwnershipWitness.CompletingLoses`.
- A delivered descriptor lies in the frame the driver handed over iff the data offset
  the driver wrote does: `QueueSpec.DeliveredInFrame`, `DeviceOpen.WildOffset`.
- The ordinary build of the free list keeps each frame at most once through a run iff
  every frame pushed while there was room was out: `Pool.UncheckedIff`,
  `Pool.UncheckedAliases`.
- Checksum completion at an odd checksum offset is right iff 257 divides the sum of the
  rest: `Csum.OddIff`, `Csum.OddGoesWrong`. At an even offset it is right unless the
  32-bit accumulator loses carries, which takes more than 131074 bytes: `Csum.EvenIff`,
  `Csum.EvenGoesWrong`.
- Segment numbers advance by the bytes before them iff the packet's views hold the
  bytes before the segment that it announces: `Gso.SeqAdvances`, `Gso.SeqRunsAhead`.
- A receive call with its whole pool free leaves its first packet in the ring iff the
  packet is chained, needs more frames than the pool has, and the call asked for more
  slots than that: `Tpacket.StallsIff`, `Tpacket.StallHere`. No call of that size gets
  past it: `Tpacket.StallsForGood`. The test made when a device opens with GSO and chained
  receiving rules it out for packets of up to 65536 bytes: `Tpacket.NoStall`.
- The rules of a filter built by hand can be wider than its port matches say; they mean
  the same iff the filter is qualified: `Steering.PortsOfProtocols`,
  `Steering.HandMade`. Filters built with the constructors are: `Steering.BuiltQualified`.
- A packet whose TCP checksum was left to the endpoint is accepted by the receiver iff
  its segment is long enough for the header it claims: `NetFrames.SingleIff`. A bare
  IPv4 header that says TCP is a packet for which it is not, though nothing shows the
  stack handing one over: `NetFrames.BareFails`.
- An AF_PACKET queue that completes or frees another queue's frame loses it; a step
  keeps every frame iff all it offers to the list are the queue's own:
  `AfTxRuns.StepKeepsAllIff`, `AfTxRuns.ForeignIsLost`.
- The indices of an address ring tell full from empty iff it has fewer than 2^32
  entries: `Rings.LenRightIff`. `NewRing` makes larger ones too.

## Model

| member | source | states |
|---|---|---|
| Pool.Frames.constructor | internal/pool/pool.go:43-59 | every frame of the slice on the list once, lowest popped first; the bitmap, when checked, agrees |
| Pool.InitialBitmap | internal/pool/check_on.go:18-28 | the words written at start say "free" of exactly the frames that exist |
| Pool.Frames.Pop | internal/pool/pool.go:74-86 | takes the last `n` or all there are, in order; list and bitmap stay in agreement |
| Pool.Frames.MarkTaken | internal/pool/check_on.go:42-47 | the bitmap then says "free" of the listed frames that were not taken, and of nothing else |
| Pool.Frames.Push | internal/pool/pool.go:109-121 | appends exactly when the address is an aligned frame of this pool, there is room and, when checked, it is not there already; otherwise counts a refusal |
| Pool.Frames.MarkFree | internal/pool/check_on.go:32-39 | true, and recorded, exactly when the frame was not on the list |
| Pool.CheckedRun | internal/pool/pool.go:74-121 | after any run of pops and pushes with arbitrary addresses: no repeats, only own aligned frames, at most the count, and on the list exactly when not out |
| Pool.NeverTwoOwners | internal/pool/pool.go:99-121 | checked build: no frame is handed out twice without an accepted return in between |
| Pool.UncheckedIff | internal/pool/pool.go:109-121 | ordinary build: no list of the run holds a frame twice iff every push with room returned a frame that was out; then the run is the checked one |
| Pool.HonestIff | internal/pool/pool.go:109-121 | one push of the ordinary build keeps an exact list free of repeats iff the frame was out or is refused anyway |
| Pool.UncheckedAliases | internal/pool/pool.go:109-121 | three operations after which the ordinary build holds one frame twice and the checked one does not |
| Rings.NewRing | dpdk/internal/queue/ring.go:50-57 | an empty ring for every power of two and nothing otherwise; up to 2^31 entries it is one the other members keep |
| Rings.LenRightIff | dpdk/internal/queue/ring.go:72-78 | the two 32-bit indices tell how much every fill of the ring holds iff it has fewer than 2^32 entries |
| Rings.Ring.Push | dpdk/internal/queue/ring.go:84-94 | appends the longest prefix that fits to the first-in first-out contents, across index wrap-around |
| Rings.Ring.PushOne | dpdk/internal/queue/ring.go:97-104 | appends one iff there is room |
| Rings.Ring.Pop | dpdk/internal/queue/ring.go:108-117 | removes up to `n` from the front, oldest first |
| Rings.Ring.PopBulk | dpdk/internal/queue/ring.go:127-136 | all `n` from the front, or nothing |
| Rings.Ring.MpEnqueue | dpdk/internal/eal/shim.c:78-96 | the C side appends the longest prefix that fits to the same contents and counts the rest as drops |
| Rings.Ring.MpDequeue | dpdk/internal/eal/shim.c:98-114 | the C side takes all or nothing from the same contents |
| Rings.WindowPush | dpdk/internal/queue/ring.go:84-94 | a store at the producer slot appends to the window, whatever the indices have wrapped to |
| Rings.WindowWrap | dpdk/internal/queue/ring.go:72-94 | a 32-bit wrap of the consumer index does not change the window |
| Mbuf.Rearm | dpdk/internal/mbuf/mbuf.go:197-199 | the packed word gives back all four of its fields |
| Mbuf.HeaderWritesStayInside | dpdk/internal/mbuf/mbuf.go:224-242 | preparing or resetting a header changes no byte outside it |
| Mbuf.PreparedReadsBack | dpdk/internal/mbuf/mbuf.go:235-253 | the receive-side wide loads read back what was prepared; so do the length, the pool stamp, one owner, no port and no next segment |
| Mbuf.ResetReadsBack | dpdk/internal/mbuf/mbuf.go:224-228 | a reset header names the pool, one segment, one owner, no port, no next segment, and the headroom as data offset |
| Mbuf.FieldsLie | dpdk/internal/mbuf/mbuf.go:244-253 | the three wide loads give the little-endian fields at bytes 16, 20 and 40 and the flags from byte 24 on |
| Mbuf.ResetRx | dpdk/internal/mbuf/mbuf.go:224-228 | the stores in place are the specified ones |
| Mbuf.PrepareTx | dpdk/internal/mbuf/mbuf.go:235-242 | the stores in place are the specified ones |
| QueueSpec.DescOKMeans | dpdk/internal/queue/queue.go:182-191 | a descriptor is accepted iff it is a non-empty range inside the packet area of one frame of the region |
| QueueSpec.VARoundTrip | dpdk/internal/queue/queue.go:197-212 | the address the driver is given maps back to the same frame |
| QueueSpec.SurvivesHeader | dpdk/internal/queue/queue.go:463-466 | prepare then read gives the descriptor back iff neither offset nor length is truncated to 16 bits |
| QueueSpec.NoTruncation | dpdk/internal/queue/queue.go:182-191 | with frames of up to 65536 bytes nothing accepted is truncated |
| QueueSpec.DeliveredInFrame | dpdk/internal/queue/queue.go:738-749 | a delivered descriptor is in the frame handed over iff the driver-written offset stays inside it |
| QueueSpec.GoodDelivered | dpdk/internal/queue/queue.go:738-766 | a packet the driver left inside a frame is delivered, where and as long as the header says and with its checksum verdicts, iff it is one segment and not empty |
| QueueSpec.ForeignIff | dpdk/internal/queue/queue.go:197-212 | an address is foreign iff it is outside the region |
| Queues.Tx.Alloc | dpdk/internal/queue/queue.go:298-322 | hands out the last frames of the list, as many as asked for, free, and sendable; the descriptors name them |
| Queues.Tx.Transmit | dpdk/internal/queue/queue.go:426-509 | offers the longest prefix that passes the check and fits, and no shorter one; headers stamped for exactly those; sent and the growth of the ledger are the driver's answer, or nothing if it is out of range |
| Queues.Tx.Drain | dpdk/internal/queue/queue.go:563-600 | the first `max` addresses leave the returned ring, the others stay in order; the ledger drops by the frames they name; a foreign address kills the queue |
| Queues.Tx.Complete | dpdk/internal/queue/queue.go:531-538 | drained frames are pushed on this queue's own list, in order |
| Queues.Tx.Reclaim | dpdk/internal/queue/queue.go:547-552 | drained frames become descriptors of the caller's |
| Queues.Tx.Free | dpdk/internal/queue/queue.go:603-607 | each descriptor's frame is pushed, in order |
| Queues.Rx.Fill | dpdk/internal/queue/queue.go:652-688 | readied frames go to the supply as far as it has room, the rest back on the list; every header taken is reset |
| Queues.Rx.Receive | dpdk/internal/queue/queue.go:712-784 | the burst is sorted into packets delivered, frames pushed back and foreign addresses; the ledger drops by the frames taken; a lying answer changes nothing |
| Queues.Rx.Recycle | dpdk/internal/queue/queue.go:787-791 | each descriptor's frame is pushed, in order |
| Queues.Rx.DrainReturned | dpdk/internal/queue/queue.go:796-821 | everything on the returned ring goes back on the list and off the ledger |
| OwnershipRuns.StepKeeps | dpdk/internal/queue/queue.go:298-821 | every action of the application and of an honest driver keeps: each frame held once, ledgers exact, stamps naming the holder; a driver that answers `k` holds the first `k` |
| OwnershipRuns.EveryRun | dpdk/internal/queue/queue.go:298-821 | so every state of every run from the opened device does |
| OwnershipRuns.OneHolder | dpdk/internal/queue/queue.go:298-821 | in every reachable state each frame of the region is in exactly one list, ring, driver share or the application, forwarded frames included |
| OwnershipRuns.LedgersExact | dpdk/internal/queue/queue.go:499-600 | the ledger is supply, returned and driver-held together, at most the depth when transmitting, and the driver's next free finds its own ring with room |
| OwnershipRuns.FreedAtHome | dpdk/internal/eal/shim.c:78-96 | a frame the driver holds is freed into the ring of the queue it was taken from, and fits |
| OwnershipRuns.CompleteKeepsIff | dpdk/internal/queue/queue.go:531-538 | `Complete` keeps every frame in one place iff all it drains are the queue's own |
| OwnershipWitness.CompletingLoses | dpdk/internal/queue/queue.go:531-538 | a three-step run, on any device with two transmit queues, after which completing loses a frame |
| OwnershipRuns.RingCoversIff | dpdk/device.go:503-511 | no batch of distinct frames overflows the returned ring iff it covers the depth or the region |
| OwnershipRuns.InitialInv | dpdk/device.go:328-365 | the deal at open puts every frame in one place |
| DeviceOpen.NextPow2 | dpdk/device.go:719-725 | the least power of two that holds `n` |
| DeviceOpen.Share | dpdk/device.go:333-365 | slices end to end, all the frames, each an even share or one more |
| DeviceOpen.DealtPartitions | dpdk/device.go:328-365 | queues with those slices start in the initial state of the run theorems |
| DeviceOpen.Open | dpdk/device.go:328-365 | opens iff every queue has a frame and a depth; the device it makes is valid, its slices partition the region, and each queue has the least power-of-two ring that holds its frames |
| DeviceOpen.OpenedIsValid | dpdk/device.go:422-485 | queues built over shares dealt end to end, with rings sized by `ringSize`, are a device the run theorems start from |
| DeviceOpen.RingCanBeTooSmall | dpdk/device.go:503-511 | a device whose returned ring a forwarder can overflow |
| DeviceOpen.WildOffset | dpdk/internal/queue/queue.go:738-749 | a header for which the next frame's bytes are delivered |
| Tpacket.PiecesWhole | afpacket/tpacket.go:499-551 | the pieces of a packet join to it, are ceil(length/buffer) many, full but for the last |
| Tpacket.BatchIsWhole | afpacket/tpacket.go:361-413 | every batch decodes into the complete packets delivered, never ends inside one, and stays within slots and frames |
| Tpacket.StallsIff | afpacket/tpacket.go:374-390 | a call with a full pool leaves its first packet iff it is chained, needs more frames than the pool has, and `max` exceeds the pool |
| Tpacket.StallsForGood | afpacket/tpacket.go:374-390 | no call of that size, with any number of frames free, gets past it |
| Tpacket.StallHere | afpacket/tpacket.go:374-390 | a four-buffer packet that calls of four slots never get past on a pool of three frames |
| Tpacket.SurelyGrows | afpacket/tpacket.go:299-447 | what a call has done with the items so far does not depend on items that arrive behind them |
| Tpacket.NoStall | afpacket/options.go:94-111 | a pool opened with room for 65536 chained bytes never stalls on a packet up to that |
| TpacketLayout.FrameShows | afpacket/tpacket.go:246-422 | from a frame with its fields at their byte offsets and its tag taken out, the reader gets the packet as it was on the wire, with time and metadata |
| TpacketLayout.BlockShows | afpacket/tpacket.go:246-282 | from a block that holds packets, each the next offset past the one before, exactly those packets, in order |
| TpacketLayout.BlockLaid | afpacket/tpacket.go:246-282 | for any packets there is such a block |
| TpacketProtocol.JudgeJustified | afpacket/tpacket.go:332-435 | a packet is skipped only if no call of that size could deliver it, left only if what it needs is more than is left, and given as many frames as it needs |
| TpacketProtocol.StepKeeps | afpacket/tpacket.go:299-447 | every step of kernel or reader keeps: published is dealt with followed by pending, delivered is what was given, every refusal justified |
| TpacketProtocol.NothingLostOrRepeated | afpacket/tpacket.go:299-447 | so over every interleaved run |
| TpacketProtocol.Conserved | afpacket/tpacket.go:299-447 | delivered, oversize and pending add up to published |
| TpacketProtocol.PathKeeps | afpacket/tpacket.go:299-447 | and over every sequence of steps from a state that has it |
| TpacketProtocol.FillAdds | afpacket/tpacket.go:299-310 | a block the kernel fills adds its items behind what is pending and leaves the call in progress as it was |
| RxRing.Load | afpacket/tpacket.go:229-236 | every load is of a block the reader owns and inside it, whatever the kernel wrote |
| RxRing.GivenBack | afpacket/tpacket.go:442-443 | the status store gives one block back and touches no other |
| RxRing.Segments | afpacket/tpacket.go:336-422 | the pieces copied join to the packet with its tag back in, with its metadata shifted; `TpacketLayout.FrameShows` says that is the packet the kernel took the tag out of |
| RxRing.Reader.HeaderAtCursor | afpacket/tpacket.go:246-270 | for arbitrary 32-bit fields: the header, and whether header and frame lie in the block |
| RxRing.Reader.Advance | afpacket/tpacket.go:273-282 | the cursor then sees what follows, and fewer frames are promised, wrapped offsets included; `TpacketLayout.BlockShows` says those are the packets of the block, to the last |
| RxRing.Reader.Turn | afpacket/tpacket.go:318-436 | one turn of the inner loop is one read of the protocol |
| RxRing.Reader.HandBack | afpacket/tpacket.go:442-443 | the block is the kernel's again and the reader is on the next |
| RxRing.Reader.Finish | afpacket/tpacket.go:438-443 | handing back is a step of the protocol, taken only when nothing is left of the block; what there is to read is what was ready after it |
| RxRing.Reader.Begin | afpacket/tpacket.go:306-316 | a call resumes where the last one left the block, or starts it; a kernel-owned block is not read |
| RxRing.Reader.Read | afpacket/tpacket.go:299-447 | a whole call, with the kernel filling any blocks between the reader's looks at block status: slots, consumption and both counts are functions of what was ready followed by what arrived; reader and kernel together take enabled steps of the protocol, whose delivered grows by the packets the slots decode to; it terminates. `RxWire` says it in the packets the kernel put in |
| RxRing.Reader.KernelWrites | afpacket/tpacket.go:306-310 | a kernel write to a block of its own, in ring order when it hands it over, is a step of the protocol and leaves what there was to read in front |
| RxRing.Reader.KernelTurn | afpacket/tpacket.go:306-310 | any blocks the kernel fills in ring order are steps of the protocol and come behind what there was to read |
| RxRing.Reader.StreamIsPending | afpacket/tpacket.go:299-447 | what a call could read is what was published and not dealt with |
| RxWire.PublishedAre | afpacket/tpacket.go:299-447 | over a run whose blocks hold packets, what was published are those packets |
| RxWire.WireToApplication | afpacket/tpacket.go:299-447 | and what was delivered are their bytes on the wire, in order and once each, but for those no call of that size could take; what is pending are the packets behind them |
| RxWire.StreamHolds | afpacket/tpacket.go:299-316 | what a reader between blocks could read are the packets of the ready blocks, as far as they follow on |
| RxWire.AllGiven | afpacket/tpacket.go:318-447 | a call with slots and frames for packets that fit one gives each its own slot and leaves none |
| RxWire.ReadAll | afpacket/tpacket.go:299-447 | so does a read of a ring they wait in: each is in its slot and the ring is empty |
| RxSpread.Spread | afpacket/tpacket.go:499-551 | the whole packet from slot `out` on, or failure with nothing marked and earlier slots as they were; an empty last segment met at a full buffer takes an empty slot of its own |
| RxSpread.SpilledIff | afpacket/tpacket.go:517-537 | the slots are the packet cut into buffers iff its last segment is not an empty one behind exactly full buffers |
| RxSpread.DeliverChain | afpacket/tpacket.go:373-413 | a chained packet is whole in consecutive slots with marks on all but the last and metadata on the first, or absent; for any segments of which only the last may be empty |
| RxSpread.Place | afpacket/tpacket.go:361-435 | one slot, several, skipped or left, as the verdict says, with the slots to match |
| RxBatch.Batch.Get | afpacket/rxqueue.go:303-313 | buffers come for consecutive slots off the end of the list; asked again, the same one |
| RxBatch.Batch.BuffersApart | afpacket/rxqueue.go:303-313 | buffers of different slots do not overlap |
| RxQueue.GiveBack | afpacket/rxqueue.go:321-324 | frames named and not filled go back in an order that restores the list |
| RxQueue.Settle | afpacket/rxqueue.go:350-361 | each filled slot is completed in place, or left where it must be |
| RxQueue.Queue.Receive | afpacket/rxqueue.go:259-363 | while the kernel goes on filling blocks: descriptor `i` names the frame that holds slot `i`, time `i` is its stamp; the list has lost exactly those frames; the call follows the protocol and keeps its invariant |
| RxQueue.Queue.Recycle | afpacket/rxqueue.go:379-383 | each descriptor's frame is pushed, in order, given back twice or not; the list stays free of repeats with the bitmap, or if none is given back twice |
| Csum.OnesComplement | afpacket/csum.go:158-170 | the complement of the folded 32-bit sum of the words |
| Csum.FindEnd | afpacket/csum.go:47-89 | the end the IP length claims, if it is plausible, else the frame's; `CsumFrames.EndsWithPacket` says when that is the end of the packet |
| Csum.CompleteL4 | afpacket/csum.go:29-99 | success iff the field fits; then the frame is the completed one, which `CsumFrames.FinishedFrame` says is the packet with a checksum that verifies; a refusal changes nothing |
| Csum.EvenIff | afpacket/csum.go:91-97 | at an even offset the range plus the old partial folds to all ones iff the carries lost are a multiple of 65535 |
| Csum.OddIff | afpacket/csum.go:91-97 | at an odd offset iff the rest, and the carries, make up for the swap |
| Csum.CompletionCorrect | afpacket/csum.go:91-97 | up to 131074 bytes: always at an even offset, at an odd one iff 257 divides the sum of the rest |
| Csum.OddGoesWrong | afpacket/csum.go:91-97 | a frame with an odd offset whose completion does not verify |
| Csum.EvenGoesWrong | afpacket/csum.go:158-170 | 131076 bytes of ones at an even offset, whose completion does not verify |
| Csum.CompletedRange | afpacket/csum.go:29-99 | only the two checksum bytes change |
| Csum.CompletedVerifies | afpacket/csum.go:29-99 | the completed frame verifies, under those conditions |
| CsumFrames.EndsWithPacket | afpacket/csum.go:47-89 | for a frame made of addresses, any tags, an IPv4 or IPv6 packet and padding: the sum ends where the packet does |
| CsumFrames.FinishedFrame | afpacket/csum.go:29-99 | completion changes the checksum field of that packet and nothing else; over exactly its bytes it then verifies, at an even offset always and at an odd one iff 257 divides the sum of the rest |
| CsumFrames.ReceiverAccepts | afpacket/csum.go:29-99 | a field that held the pseudo header's sum, as the stack leaves it, then verifies with the pseudo header in front |
| CsumFrames.CompleteWhen | afpacket/csum.go:117-143 | in the numbers of the virtio header: which frames of a batch are finished, which are counted bad, which are let be |
| Csum.CompleteOffloads | afpacket/csum.go:117-143 | every frame of the batch that needs it is completed and its flag cleared; the count is of those that could not be; nothing else changes |
| Csum.SecondPassBatch | afpacket/csum.go:117-143 | a second pass changes no frame and no flag |
| AfTx.TxQueue.WireOnePerPacket | afpacket/txqueue.go:334-347 | every message points at its own fixed slot again |
| AfTx.TxQueue.SendAll | afpacket/txqueue.go:361-393 | for a kernel that takes no more than it is handed: the wire grows by the messages its answers say it took, to the call; system calls, drops and ring-full counts are those of the conversation, and `AfKernel.TalkWhy` says which answers end one |
| AfKernel.TalkEnds | afpacket/txqueue.go:361-393 | a conversation ends with all taken, or on an answer that took nothing, the rest counted as lost unless the device was full |
| AfKernel.TalkWhy | afpacket/txqueue.go:357-393 | messages are lost iff the last errno is none of 0, 4, 11 and 105 or the last 16 answers took nothing with errno 0 or 4; the device was full iff it is 11 or 105; short of all it is one of the two |
| AfKernel.TalkGoesOn | afpacket/txqueue.go:357-393 | no answer before the last was such a reason |
| AfKernel.QuietSkipped | afpacket/txqueue.go:373-392 | fewer than 16 quiet answers in a row change nothing but the number of calls |
| AfKernel.FewCalls | afpacket/txqueue.go:362 | at most 16 system calls a message, whatever the kernel answers |
| AfKernel.TalkSums | afpacket/txqueue.go:364-371 | the messages taken are what the answers add up to, capped at the messages there were |
| AfKernel.TalkAllEnds | afpacket/txqueue.go:247-320 | batch after batch: short of the messages offered only if the last answer took nothing |
| AfTx.TxQueue.FillSingles | afpacket/txqueue.go:274-287 | message `i` then gathers exactly its own frame, behind its header |
| AfTx.TxQueue.LayOut | afpacket/txqueue.go:602-631 | message `m` then points at the iovecs of packet `m`, in scratch that is not moved afterwards |
| AfTxSpec.ChainLength | afpacket/txqueue.go:671-683 | how many descriptors the packet at `at` has, or none if it does not end |
| AfTxSpec.CheckChain | afpacket/txqueue.go:696-720 | whether every descriptor fits its frame and only the first carries metadata that is in range |
| AfTxSpec.OffloadFitsIff | afpacket/txqueue.go:196-212 | metadata is in range iff the checksum field asked for, and the headers of a segmented packet, lie in the frame |
| AfFrames.DescFitsIff | afpacket/txqueue.go:257-262 | a descriptor fits iff it is a non-empty range inside one frame and the region |
| AfTxSpec.Scan | afpacket/txqueue.go:563-588 | exactly the packets of one batch: whole and fit, as many as messages, iovecs and room take; or why there is none |
| AfTxSpec.SinglesEnd | afpacket/txqueue.go:247-272 | single frames make the batches the chained path would make of them: the iovec budget never binds |
| AfTxSpec.SinglesOffered | afpacket/txqueue.go:247-248 | fit single frames with room are offered in batches of 256 and a rest |
| AfGatherSpec.ScanPackets | afpacket/txqueue.go:745-889 | exactly the packets of one gather batch, or the first that is not whole |
| AfTx.TxQueue.TransmitChained | afpacket/txqueue.go:552-665 | accepted is a prefix that cuts no packet, each gathered from this call's frames; it has as many packets as the kernel's answers took of the batches offered |
| AfTx.TxQueue.TransmitSingles | afpacket/txqueue.go:247-320 | the same for single frames |
| AfTx.TxQueue.Transmit | afpacket/txqueue.go:214-321 | over any history of calls: what the kernel sees of each message is the packet it stands for in this call; the accepted prefix is what the kernel's answers took of the batches offered, and pending grows by it within 4096; why it stopped |
| AfTx.TxQueue.TransmitGather | afpacket/txqueue.go:745-889 | the same for segments of the caller's: as many whole packets as the answers took, from this call's segments; the error cases |
| AfTx.TxQueue.Alloc | afpacket/txqueue.go:142-155 | the last frames of the list: as many as asked for, free, and pending up to 4096 has room for |
| AfTx.TxQueue.Complete | afpacket/txqueue.go:435-445 | the oldest pending frames, up to `max`, go back on the list |
| AfTx.TxQueue.Reclaim | afpacket/txqueue.go:449-464 | or to the caller |
| AfTx.TxQueue.Free | afpacket/txqueue.go:468-472 | each frame is pushed, in order |
| AfTx.TxQueue.BuildFrames | afpacket/txqueue.go:407-421 | the builder fills consecutive frames; frames that are apart hold what it wrote; where it stopped and why |
| AfTx.TxQueue.SendFunc | afpacket/txqueue.go:397-430 | the cycle: sent frames back, frames taken, the builder asked for each until it has no more or asks for too much, the frames it built handed over and taken as the kernel's answers say, the rest back; a bad length sends nothing and returns all, and only that is an error |
| AfTxSteps.Alloc | afpacket/txqueue.go:142-155 | the method is the machine's step |
| AfTxSteps.Transmit | afpacket/txqueue.go:167-170 | the method is an enabled step of the machine |
| AfTxSteps.Complete | afpacket/txqueue.go:435-445 | the method is the machine's step |
| AfTxSteps.Reclaim | afpacket/txqueue.go:449-464 | the method is the machine's step |
| AfTxSteps.Free | afpacket/txqueue.go:468-472 | the method is the machine's step |
| AfTxSteps.SendFunc | afpacket/txqueue.go:397-430 | for any builder and kernel: what the builder was asked and what was sent, as the queue's own contract has it, and a path of the machine of which the first step alone can lose frames, those not its own; from a state with each frame in one place, the frames added to the wire are the builder's bytes |
| AfTxRuns.StepKeeps | afpacket/txqueue.go:142-472 | every step keeps each own frame in exactly one of list, pending and caller |
| AfTxRuns.FramesInOnePlace | afpacket/txqueue.go:142-472 | so over every run, with pending at most 4096 |
| AfTxRuns.StepConserves | afpacket/txqueue.go:435-472 | a step loses the foreign frames it offers to the list and nothing else |
| AfTxRuns.StepKeepsAllIff | afpacket/txqueue.go:435-472 | so it keeps every frame, foreign ones too, iff all it offers to the list are its own |
| AfTxRuns.RunConserves | afpacket/txqueue.go:142-472 | over every run: held and lost together are what there was and what arrived |
| AfTxRuns.ForeignIsLost | afpacket/txqueue.go:435-445 | a three-step run after which another queue's frame is held by nobody |
| AfTxRuns.OpenedQueueRuns | afpacket/txqueue.go:115-135 | in particular from the queue as it is opened, with either build of the list |
| Gso.IncrementalIsFull | netstack/gso.go:183-188 | the incremental IPv4 checksum is that of a full recomputation |
| Gso.IpVerifies | netstack/gso.go:183-188 | and verifies |
| Gso.SegmentPasses | netstack/gso.go:194-235 | every segment passes the receive-side check |
| Gso.PayloadPreserved | netstack/gso.go:46-56 | the payloads join to the payload, are ceil(length/MSS) many, all but the last exactly one MSS |
| Gso.EmitJoins | netstack/gso.go:96-130 | what is announced comes out in order, as far as it is there |
| Gso.SeqAdvances | netstack/gso.go:205 | the number of segment `k` is the first plus the bytes before it, modulo 2^32, iff those bytes are there |
| Gso.SeqRunsAhead | netstack/gso.go:205 | a packet for which it is not |
| Gso.FlagsKept | netstack/gso.go:206-211 | each flag is the packet's, but PSH and FIN only on the last |
| Segmenter.Splitter.Skip | netstack/gso.go:103-114 | the cursor is past `n` bytes of the views, or at the end |
| Segmenter.Splitter.Take | netstack/gso.go:118-130 | the next `n` bytes across views, or what is left |
| Segmenter.Splitter.Init | netstack/gso.go:156-181 | template, counts and cursor for any packet, at the end where its views stop short; `Next` takes it iff header and MSS stay below 65536 bytes; `NetFrames.SegmentKeeps` says what of the header the template keeps |
| Segmenter.SetIPLength | netstack/gso.go:185-188 | the header in place with length and incremental checksum |
| Segmenter.Splitter.Next | netstack/gso.go:194-235 | the frame in place is frame `seg` of the packet around the next data, with consistent lengths where the payload ran out |
| NetTx.CopyViews | netstack/tx.go:208-220 | the packet across its views, past the unused bytes, as much of it as the frame holds; the rest of the frame is as it was |
| NetTx.BuildSingle | netstack/tx.go:182-188 | for any packet the whole frame afterwards, padding and checksum included; for one with honest lengths the completed packet |
| NetTx.TakenWhole | netstack/tx.go:182-188 | nothing the frame held before shows in the frame of a packet with honest lengths |
| NetTx.FinishTCPChecksum | netstack/gso.go:71-85 | the frame in place with the checksum over exactly the bytes the IPv4 length covers |
| NetFrames.FinishedIff | netstack/gso.go:71-85 | a completed packet is accepted by the receive-side check iff its segment is long enough for its header |
| NetFrames.SingleIff | netstack/tx.go:182-187 | so for the one frame of an unsplit packet; under twenty bytes of segment it goes out as the stack made it |
| NetFrames.SingleKeeps | netstack/tx.go:182-188 | and every byte of it but the TCP checksum is the packet's |
| NetFrames.BareFails | netstack/gso.go:76-78 | a packet with a sound IPv4 header and no TCP header, which goes out unaccepted |
| Inet.TcpSumMeans | netstack/gso.go:71-85 | the sum computed in parts is the sum over addresses, protocol, length and segment in one piece |
| Inet.VerdictMeans | netstack/gso.go:71-85 | what the receive-side check says of an unfragmented TCP packet, in sums over bytes |
| NetFrames.SplitMeans | netstack/gso.go:194-235 | every frame of a split packet is accepted, numbered and flagged as its segment, has every other header byte of the packet and zeros behind its data up to 60 bytes, and together they carry the payload |
| NetFrames.SegmentKeeps | netstack/gso.go:156-235 | a segment has every byte of the packet's headers but IPv4 bytes 2, 3, 10, 11 and TCP bytes 4 to 7, 13, 16, 17 |
| NetFrames.SplitNumbers | netstack/gso.go:203-211 | frame `k`, in the bytes of the TCP headers: `k` segments after the packet's number modulo 2^32, its flags without bits 0 and 3 before the last |
| NetFrames.SplitWhole | netstack/gso.go:194-235 | for a packet that has what it announces: full but the last, numbered by the bytes before |
| NetTx.Copier.Build | netstack/tx.go:170-202 | in turn it writes the next of the frames left, and for an unsplit packet of any lengths exactly what `BuildSingle` says; out of turn nothing; it never indexes past the batch |
| NetWrite.Admit | netstack/gso.go:241-250 | the most leading packets that fit, and their frames |
| NetWrite.AdmitsOne | netstack/gso.go:241-250 | there is only one such number |
| NetWrite.CutOff | netstack/tx.go:108-116 | counting no further than the budget admits the same packets |
| NetWrite.Port.Transmit | netstack/tx.go:98-153 | the wire grows by a prefix of the admitted packets' frames, within the lesser of slots and frames; sent counts the packets that prefix has frames of |
| NetWrite.SentIs | netstack/tx.go:138-152 | that count is the whole packets, and one more iff the device stopped inside it |
| NetWrite.Port.WritePackets | netstack/tx.go:42-93 | for any device: the rounds of the call, each handed the most packets that fit and taken as the device says, none too many and none too few; sent, cuts and wire are what those rounds add up to; a packet is cut iff a round stopped inside it; the error is the last round's; sent and dropped make the list; it ends |
| NetWrite.CutWhere | netstack/tx.go:138-152 | over the rounds of a call, a sent packet lacks frames iff the device stopped inside it, and is whole otherwise |
| NetWrite.StopIsShort | netstack/tx.go:144-152 | a round that stops inside a packet was handed it and took less than it was handed |
| NetWrite.FewCuts | netstack/tx.go:138-152 | no more packets go out in part than there were rounds in which the device fell short |
| NetWrite.OneLog | netstack/tx.go:63-91 | what the device does decides every round: a call has one sequence of rounds |
| Steering.Validate | match.go:205-256 | accepts iff the filter is consistent |
| Steering.RefusedIff | match.go:205-256 | a filter is refused iff it is promiscuous with matches, or has a VLAN past twelve bits, EtherType 0, no prefix, an unknown kind, two protocols, or a port and no protocol |
| Steering.ExpandRules | match.go:385-398 | the cross product, or the rules as they were |
| Steering.Dedupe | match.go:363-376 | the first of each protocol, in order |
| Steering.Rules | match.go:296-359 | refused as contradictory iff inconsistent, for size iff the product of alternatives exceeds 16; otherwise a packet satisfies the filter iff it matches some rule |
| Steering.Meaning | match.go:345-353 | the expansion means the filter |
| Steering.Counted | match.go:385-398 | its size is the product, or past the bound iff the product is, though it stops early |
| Steering.SetAdds | match.go:346-353 | setting a free field adds exactly its condition |
| Steering.PortsOfProtocols | match.go:122-130 | the rules mean ports of their protocols iff a protocol match is there, or each such port is also asked for of any protocol |
| Steering.BuiltQualified | match.go:122-130 | filters built with the constructors are so |
| Steering.BuiltMeans | match.go:90-130 | and a packet satisfies one iff, of each field the calls are about, it has one of the values asked for |
| Steering.HandMade | match.go:220-228 | a hand-built filter that validates and is not |
| Neighbors.Neighbors.Learn | netstack/neigh.go:71-83 | undisturbed: a new address in a table with room is learned, one that says what the table says or is pinned is not, and one that replaces or evicts is once 10 ms have passed and there is an entry to evict |
| Neighbors.Neighbors.Pin | netstack/neigh.go:88-90 | the address is pinned to that MAC afterwards, whatever the table held, unless it is full of pinned entries and the address is new |
| Neighbors.Neighbors.Publish | netstack/neigh.go:92-127 | the copy loop computes the specified write |
| Neighbors.TestsAgree | netstack/neigh.go:71-83 | the test outside the lock turns away exactly what the one inside would |
| Neighbors.WriteChanges | netstack/neigh.go:103-126 | when a write changes the table, exactly; it changes one entry, and evicts exactly one unpinned entry iff the table was full and the address new |
| Neighbors.LearnOutcome | netstack/neigh.go:71-127 | the outcome of learning, for every table, address and clock, without the write's own test |
| Neighbors.PinOutcome | netstack/neigh.go:88-127 | the outcome of pinning, likewise |
| Neighbors.EveryInterleaving | netstack/neigh.go:71-127 | over every interleaving of stale snapshots, locked writes and pins: at most 4096 entries, and each learned write that replaces or evicts at least 10 ms after the write before |
| Neighbors.FromStart | netstack/neigh.go:39-127 | in particular from the empty table |
| Neighbors.PinnedStays | netstack/neigh.go:71-127 | a pinned address keeps its MAC until pinned again |
| Offloads.MarshalRoundTrip | offload.go:61-87 | the virtio header reads back |
| Offloads.HeaderIff | offload.go:61-87 | the ten bytes are the header of section 5.1.6 of the virtio specification, field by field, low byte first |

## Left out

- Sockets, mmap, poll, setsockopt, EAL bring-up: the kernel and driver appear only as arbitrary answers and steps.
- The mlx5 and afxdp backends, the multi-ring wrapper of the DPDK backend, and chained DPDK deliveries: conservation is for one ring a queue and a driver that delivers single-mbuf packets.
- GRO, the ARP callback, the TCP stack and timing: the waiting in WritePackets is a number of idle rounds, `patience`.
- Statistics beyond the counters named, error texts, `String` methods, option setters.
- Queues.Tx.Transmit: offload metadata and checksum flags are not written, so the parse of the packet's headers they need is not modelled.
- RxRing.Reader.Read: the kernel's writes come before the reader's looks at block status; in between the reader touches only the block it is on.
- NetWrite.Port.Transmit: packets are ones `Link.Takes`: they fit the frame, their headers are as long as they say, and where a checksum is to be completed the IPv4 total length does not exceed the packet; what the builder does with others is stated of `BuildSingle` and `Copier.Build`.
- Segmenter.Splitter.Next: header and MSS together are below 65536 bytes, as a frame of less than that holds.
- RxQueue.Queue.Receive: frames are at least 128 bytes and below 4 GiB, as the options require.
- DeviceOpen.Open: a region of up to 2^31 frames and 2^48 bytes, mapped below 2^64; the mempools are at different addresses.
- NetWrite.Port.WritePackets: a device call that reports failure has taken no frame of that round.
- AfTx.TxQueue.SendAll: the kernel does not claim more messages than it was handed.
- `Ownership` places the driver's frees and a queue's own steps in some order, one at a time; the two ends of a ring are not interleaved inside one operation.
- Neighbors.Neighbors.Publish: the locked section is one step; the order in which a map hands out its keys is a parameter.
