# WireSpaces, modelled and proved in Dafny

WireSpaces carries packets between small hosts over shared Links. This project models the parts of it
whose correctness is not visible in any one function, and proves what they promise together.

**Compact BITS transport** (`Integers`, `Protocol`, `Bitmap16`, `Receiver*`, `Sender*`, `AckArithmetic`,
`Exchange`, `EndToEnd`, `Misreading`, `Turns`, `Lockstep`, `Window`, `Pipeline`, `Beginnings`). A selective-repeat
protocol
moves an object of up to 65,536 segments with 8-bit sequence numbers and a 16-bit acknowledgement bitmap. Each
endpoint appears twice: as a class with the source's counters, registers, timers and slots updated in place
(`ReceiverEngine.Engine`, `SenderEngine.Engine`, `ReceiverIngress.BitsReceiver`), and as a machine over sets of
absolute segment indices (`ReceiverSpec`, `SenderSpec`) from which windows, registers and wrapping sequences are
absent. The classes are proved to take exactly the machine's steps; everything else is proved about the
machines: invariants over every sequence of calls, end-to-end safety over a network that loses, duplicates and
reorders, the exact range in which acknowledgements are read back as written, the exact object size from which a
run can count a segment that was never stored, a bound on what a silent peer can cost, and progress both when
the ends take turns and with a full window under way. `ReceiverAnswers` and `SenderAnswers` say of every call,
from its message, state, clock and Link alone, all that it does: when exactly an acknowledgement, a SETUP, a
segment or a probe goes out, when an end gives up, and with what result. `Beginnings` ties all of it to what the
caller of the transmitter gave. `ReceiverEngine.Engine.limit` selects between the general
code and the shorter branches that are compiled when the window can only be one segment wide.

**Wire topology and flooding** (`Graph`, `GraphSearch`, `Topology`, `Projection`, `Forwarding`, `Router`,
`Flooding`, `Delivery`, `Compiler`). The deployment compiler picks, for each Wire, a tree of host/Link
attachments; it lowers the tree to bit masks in per-host tables; routers flood packets along it. `Topology`
proves when each of the four ways of selecting attachments succeeds and that each yields the tree asked for,
`Projection` that the tables carry it out, `Flooding` that any packet then crosses each selected Link exactly
once, whatever the order of events, and `Delivery` which receivers it is offered to. `Compiler` joins them:
from an authored deployment to every packet on every Wire of it. `GraphSearch` stands in for the graph
library: search, bridges, and the proof that counting edges against nodes finds cycles.

**UART framing** (`Words`, `Crc`, `CrcCheck`, `Hdlc`, `HdlcCrc`, `HdlcCodec`). Byte stuffing as in section 4.2 of
RFC 1662, with CRC-16/CCITT-FALSE in place of that document's FCS. The encoder, the incremental C++ decoder
and the separate Python encoder and decoder are methods and classes; `Hdlc` holds the frame language they
implement, for any 16-bit checksum, `Crc` the CRC over registers of any width, and `CrcCheck` the polynomial
and the check value of the one in use.

**SPSC ring buffer** (`RingBuffer`). The buffer as one thread uses it, and the same code as a machine in
which a producer and a consumer interleave at single index loads, index stores and slot accesses.

`dafny verify dfyconfig.toml` checks everything.

## Where the code differs from its documentation

The model follows the code.

- `docs/bits_transport.md:141` and `:264` have a malformed SETUP dropped without a reply. The code answers one
  with REJECT(InvalidArgument) whenever it has a session byte, the transfer has not expired and a packet can be
  prepared (`lib/wirespaces/transports/bits/receiver_engine.cpp:228-239`): `ReceiverRefusals.MalformedIsDroppedIff`
  says exactly when it is dropped, `MalformedIsAnswered` gives one that is not.
- `docs/bits_transport.md:145` has a SETUP for the active session with other parameters dropped. The transfer is
  indeed left alone, but the code answers (`lib/wirespaces/transports/bits/receiver_engine.cpp:236-258`): with
  Busy when the parameters are acceptable in themselves, else with what is wrong with them.
  `ReceiverRefusals.ConflictIsDroppedIff` says exactly when it is dropped, `BusyIff` when the answer is Busy.
- `docs/bits_transport.md:213-217` warns that an acknowledgement from an earlier sequence cycle can look
  current. `Misreading.ImaginedIffLong` gives the object size from which a run can count a segment
  no sink has stored, by playing that run, and `EndToEnd.CompleteMeansDelivered` shows that completion is
  safe even then.
- The ring buffer's `size()` is the number of items only while the index type can count the capacity, which
  nothing checks (`lib/wirespaces/containers/ring_buffer.h:47-54`); `RingBuffer.SizeIsExactIff` says when.
  Queueing itself is right for every capacity; `Shape.Room` says how many items then fit.

## Model

| member | source | states |
|---|---|---|
| Protocol.Setup.OffsetIs | lib/wirespaces/transports/bits/protocol.h:54-62 | segments laid end to end start at index times segment size |
| Bitmap16.PopCount16 | lib/wirespaces/transports/bits/receiver_engine.cpp:379-383 | the number of set bits is the size of the set the register stands for |
| Bitmap16.ShiftRight16 | lib/wirespaces/transports/bits/bits.cpp:616-617 | shifting a register renumbers the members of its set |
| Bitmap16.RegisterOf | lib/wirespaces/transports/bits/receiver_engine.cpp:328-331 | a set of window offsets has one register, and the register with those bits is it |
| ReceiverSpec.StoredSound | lib/wirespaces/transports/bits/receiver_engine.cpp:165-191 | one more segment with the sink keeps the receiver's invariant and moves neither count nor grant back |
| ReceiverEngine.AckMatches | lib/wirespaces/transports/bits/receiver_engine.cpp:306-331 | the masked register and the two sequence bytes are the acknowledgement of the accepted set |
| ReceiverEngine.NarrowAckMatches | lib/wirespaces/transports/bits/receiver_engine.cpp:297-304 | so are the two bytes the width-one build computes without a register |
| ReceiverEngine.NextInOrder | lib/wirespaces/transports/bits/receiver_engine.cpp:170-172 | a prefix plus its next segment is the next prefix, so the width-one build needs no register |
| ReceiverEngine.Engine.constructor | lib/wirespaces/transports/bits/receiver_engine.cpp:52-59 | a fresh engine is idle and its window is capped by the build |
| ReceiverEngine.Engine.UpdateGrant | lib/wirespaces/transports/bits/receiver_engine.cpp:373-392 | the grant ends a full window past the count, or with the object |
| ReceiverEngine.Engine.Slide | lib/wirespaces/transports/bits/receiver_engine.cpp:174-178 | the loop leaves the count at the least segment not accepted and the register based there |
| ReceiverEngine.Engine.HandleSegment | lib/wirespaces/transports/bits/receiver_engine.cpp:117-191 | handling a SEGMENT takes the machine's step, in both builds |
| ReceiverEngine.Engine.HandleSetup | lib/wirespaces/transports/bits/receiver_engine.cpp:228-280 | handling a SETUP takes the machine's step, with every refusal in the source's order |
| ReceiverEngine.Engine.SendAcknowledgement | lib/wirespaces/transports/bits/receiver_engine.cpp:296-341 | the PDU sent is the acknowledgement of the accepted set, and a failed send ends the transfer once |
| ReceiverEngine.Engine.Consume | lib/wirespaces/transports/bits/receiver_engine.cpp:71-92 | expiry first, then one message: the machine's step, its events and its result |
| ReceiverEngine.Engine.Abort | lib/wirespaces/transports/bits/receiver_engine.cpp:107-115 | a local abort ends the transfer whatever becomes of its notice |
| ReceiverEngine.Engine.Drive | lib/wirespaces/transports/bits/receiver_engine.cpp:61-115 | any sequence of calls does what the set machine does on it, event for event |
| ReceiverEngine.SameBehaviour | lib/wirespaces/transports/bits/receiver_engine.cpp:144-180 | the width-one build and the general build at width one show the same events, results and states for every sequence of calls, times and answers |
| ReceiverRuns.CallEffect | lib/wirespaces/transports/bits/receiver_engine.cpp:117-280 | each call begins a transfer, adds one segment to set and sink together, or changes neither, under conditions stated on the message |
| ReceiverRuns.EveryRunFiles | lib/wirespaces/transports/bits/receiver_engine.cpp:117-191 | after any calls the invariant holds and the sink was handed each accepted segment exactly once, at its offset, since its transfer began |
| ReceiverRuns.GrantNeverShrinks | lib/wirespaces/transports/bits/receiver_engine.cpp:373-392 | within a transfer count and grant only grow |
| ReceiverRuns.CompletedHoldsAll | lib/wirespaces/transports/bits/receiver_engine.cpp:182-186 | an open transfer is completed exactly when every segment is accepted |
| ReceiverRuns.AckOfNext | lib/wirespaces/transports/bits/receiver_engine.cpp:296-341 | every acknowledgement describes the state its call leaves, and only an open or beginning transfer sends one |
| ReceiverRuns.EveryRunBalances | lib/wirespaces/transports/bits/receiver_engine.cpp:107-115 | in every run, transfers admitted equal completions, failures and aborts, plus one if one is active |
| ReceiverRefusals.RejectsIff | lib/wirespaces/transports/bits/receiver_engine.cpp:228-265 | a call is answered with a REJECT exactly when the engine handles a message that calls for one and has a packet for it; the REJECT is its only PDU, with that message's session and reason, and the receiver is left as it was |
| ReceiverRefusals.MalformedIsDroppedIff | docs/bits_transport.md:141 | a malformed SETUP goes unanswered exactly when it has no session byte or the engine cannot answer at all, and changes nothing |
| ReceiverRefusals.MalformedIsAnswered | docs/bits_transport.md:264 | an idle receiver answers a body that is no SETUP with REJECT(InvalidArgument) |
| ReceiverRefusals.ConflictIsDroppedIff | docs/bits_transport.md:145 | a SETUP that would change the transfer under way changes nothing, and goes unanswered exactly when the engine cannot answer at all |
| ReceiverRefusals.BusyIff | lib/wirespaces/transports/bits/receiver_engine.cpp:236-264 | the answer is Busy exactly for a SETUP acceptable in itself that would change the transfer under way, or that the service is too busy for |
| ReceiverRefusals.ConflictIsAnswered | lib/wirespaces/transports/bits/receiver_engine.cpp:236-258 | one conflicting SETUP is answered with Busy, another of the same session with InvalidArgument |
| ReceiverRefusals.ReasonIs | lib/wirespaces/transports/bits/receiver_engine.cpp:233-264 | each reason for refusing a SETUP on its own account is given exactly under its own condition |
| ReceiverAnswers.CallDescribed | lib/wirespaces/transports/bits/receiver_engine.cpp:61-115 | every call, on every receiver: the whole list of its events in order, and its result, from the message, the state and the answers it gets |
| ReceiverAnswers.AcksIff | lib/wirespaces/transports/bits/receiver_engine.cpp:197-208 | a call hands over one acknowledgement exactly when it handles a PROBE of the open session, the SETUP of the transfer under way or one that begins a transfer, or a well-sized SEGMENT that is unwanted or taken by the sink, and a packet can be prepared; and what it returns then |
| ReceiverAnswers.PhaseIs | lib/wirespaces/transports/bits/receiver_engine.cpp:122-280 | the state each call leaves the transfer in: ended by what ended it, completed by the last segment, begun, or as it was |
| ReceiverLease.LeaseMoves | lib/wirespaces/transports/bits/receiver_engine.cpp:134-136 | only a beginning transfer, a matching SETUP, a well-formed in-grant SEGMENT or a matching PROBE renews the lease |
| ReceiverLease.ExpiresOnTime | lib/wirespaces/transports/bits/receiver_engine.cpp:61-69 | on a wrapping clock, with calls close enough together, a transfer expires at the first call at which its true idle time has reached the timeout, and never earlier |
| ReceiverLease.PaceIsExact | lib/wirespaces/transports/bits/receiver_engine.cpp:61-69 | every run of calls no further apart than a pace expires on time if and only if the pace is at most a full clock less the timeout, for a receiver with a timeout that can take a transfer at all |
| ReceiverIngress.EngineConfig | lib/wirespaces/transports/bits/bits.cpp:74-99 | the window is the number of installed slots and no segment size admitted exceeds any of them |
| ReceiverIngress.SegmentHasRoom | lib/wirespaces/transports/bits/bits.cpp:132-148 | so a segment of an accepted transfer is taken whenever a slot is free, and otherwise the answer is full |
| ReceiverIngress.ReceiveCounts | lib/wirespaces/transports/bits/bits.cpp:111-149 | exactly an accepted packet occupies one more slot |
| ReceiverIngress.TurnDrains | lib/wirespaces/transports/bits/bits.cpp:151-190 | a turn frees one segment slot if any is in use and the datagram slot, or at expiry all |
| ReceiverIngress.SegmentAnswer | lib/wirespaces/transports/bits/bits.cpp:132-149 | a SEGMENT is taken exactly when a free slot has room for it, into the first such slot; the answer is full exactly when no slot is free |
| ReceiverIngress.OtherAnswer | lib/wirespaces/transports/bits/bits.cpp:111-130 | any other known PDU is taken exactly when the one slot for those is free and large enough; full exactly when it is in use |
| ReceiverIngress.TurnIs | lib/wirespaces/transports/bits/bits.cpp:151-190 | a turn hands on the SEGMENT in the lowest slot in use, then the other PDU, and frees both; it fails if either call did, is else blocked if either was, and is idle exactly when nothing waited |
| ReceiverIngress.TurnExpires | lib/wirespaces/transports/bits/bits.cpp:151-162 | at expiry nothing that waited is handed on and the one event is the failure |
| ReceiverIngress.BitsReceiver.Accept | lib/wirespaces/transports/bits/bits.cpp:111-149 | the mask and slots after an arrival are those of the slot map; full, rejected and accepted as in the source |
| ReceiverIngress.BitsReceiver.Process | lib/wirespaces/transports/bits/bits.cpp:151-190 | expiry, then the lowest segment slot, then the datagram: the machine's steps in that order, with the combined result |
| SenderSpec.SegmentsFit | lib/wirespaces/transports/bits/bits.cpp:42-45 | the rounded-up count leaves a last segment that is not empty and not too long |
| SenderSpec.TakeOrdered | lib/wirespaces/transports/bits/bits.cpp:449-475 | whatever an acknowledgement holds, nothing unsent is counted or reported, and counted <= granted <= segment count |
| SenderSpec.PayloadFits | lib/wirespaces/transports/bits/bits.cpp:532-554 | every segment sent lies inside the object |
| SenderSpec.ProcessSound | lib/wirespaces/transports/bits/bits.cpp:243-343 | every call, on any message, time and Link answer, keeps the window at most 16 wide, sent within granted, reported within sent and retries within their limit |
| SenderSpec.ProcessEmits | lib/wirespaces/transports/bits/bits.cpp:519-586 | what a call sends is this transfer's SETUP, PROBE or ABORT, or a granted unreported segment with its own bytes; it forgets nothing sent, and ends on any send that is neither admitted nor postponed |
| SenderEngine.ShiftSlots | lib/wirespaces/transports/bits/bits.cpp:602-627 | shifted registers and arrays stand for the same absolute segments from the new base |
| SenderEngine.AckTests | lib/wirespaces/transports/bits/bits.cpp:449-466 | the mask tests ignore exactly the acknowledgements the absolute reading ignores |
| SenderEngine.SlotTimers.Shift | lib/wirespaces/transports/bits/bits.cpp:616-626 | the timer and retry arrays move down in place and end in zeros |
| SenderEngine.Engine.StartTransfer | lib/wirespaces/transports/bits/bits.cpp:372-402 | the transfer starts from nothing with the caller's bytes, session, initial sequence number and segment size, or is refused for the source's reason |
| SenderEngine.Engine.Receive | lib/wirespaces/transports/bits/bits.cpp:220-241 | the ingress slot takes one message of a kind the transmitter handles, and is otherwise left alone |
| SenderEngine.AdmissibleIs | lib/wirespaces/transports/bits/bits.cpp:220-241 | the slot takes every message that is handled, and otherwise only a known kind with a wrong body |
| SenderEngine.Engine.HandleAck | lib/wirespaces/transports/bits/bits.cpp:438-488 | an acknowledgement changes counters, registers and arrays as the absolute reading says |
| SenderEngine.Engine.FindUnsent | lib/wirespaces/transports/bits/bits.cpp:284-297 | the scan finds the least granted segment never admitted |
| SenderEngine.Engine.FindDue | lib/wirespaces/transports/bits/bits.cpp:299-306 | the scan finds the least outstanding segment whose timer has run out |
| SenderEngine.Engine.Consume | lib/wirespaces/transports/bits/bits.cpp:243-343 | a call takes the machine's step: at most one message, then at most one send or timer step |
| SenderEngine.Engine.Abort | lib/wirespaces/transports/bits/bits.cpp:362-370 | a local abort takes the machine's step |
| SenderAnswers.SilentCallDescribed | lib/wirespaces/transports/bits/bits.cpp:255-342 | a call without a message, from state and clock alone: which SETUP, segment or probe it sends and what each answer of the Link makes of that, when it gives up, and when it does neither |
| SenderAnswers.EveryStateIsOne | lib/wirespaces/transports/bits/bits.cpp:264-342 | and every state is one of those described |
| SenderAnswers.OverdueIsResent | lib/wirespaces/transports/bits/bits.cpp:299-319 | with nothing unsent, the least segment out whose time has run out is the call's only PDU while it has retries left, and is counted as one more |
| SenderAnswers.GivesUpIff | lib/wirespaces/transports/bits/bits.cpp:275-279 | a call without a message gives up if and only if a due SETUP, segment or probe has been tried again as often as it may be; it then attempts the notice whatever becomes of it |
| SenderAnswers.AckIs | lib/wirespaces/transports/bits/bits.cpp:438-488 | an acknowledgement is used exactly when it is of the transfer under way, stays inside window and object, counts only what went out and reports nothing past its grant; count, grant, reports, state and callback then follow from its 8-bit fields |
| SenderAnswers.EndingsAre | lib/wirespaces/transports/bits/bits.cpp:490-517 | a REJECT or ABORT ends the transfer and is told exactly when it names the open session |
| SenderAnswers.CallDescribed | lib/wirespaces/transports/bits/bits.cpp:243-343 | a call with a message handles it first, fails on one it cannot handle, and then does what is due |
| SenderAnswers.LocalAbortIs | lib/wirespaces/transports/bits/bits.cpp:362-370 | a local abort ends an open transfer and attempts the notice; its result is the Link's |
| SenderAnswers.LinkAnswers | lib/wirespaces/transports/bits/bits.cpp:12-21 | what each answer of the Link is to the transmitter: only acceptance is sent, only a full Link is full |
| SenderRuns.OneEndingEach | lib/wirespaces/transports/bits/bits.cpp:481-517 | over any calls each started transfer gets at most one terminal callback |
| SenderRuns.ActPays | lib/wirespaces/transports/bits/bits.cpp:255-342 | while nothing is heard every admitted send strictly lowers the remaining effort, and a full Link leaves the whole state unchanged |
| SenderRuns.SilentPeerBound | lib/wirespaces/transports/bits/bits.cpp:243-343 | from any reachable state at most 16 * (1 + maximum retries) + 1 sends are admitted while nothing is heard |
| SenderRuns.SilentPeerEnds | lib/wirespaces/transports/bits/bits.cpp:264-342 | and with calls at least a timeout apart over a Link that is not full, one call more than that ends every transfer |
| Beginnings.AnswerIs | lib/wirespaces/transports/bits/bits.cpp:372-390 | each answer to a start is given exactly under its condition: busy while a transfer is open, a bad argument for an object that is empty or needs more than 65,536 segments, too small when the packet holds no SETUP or segment (the check against 32-bit sizes never decides) |
| Beginnings.StartedIs | lib/wirespaces/transports/bits/bits.cpp:392-402 | a start leads to the caller's bytes under the caller's session, initial sequence number and segment size, in the fewest segments that cover them, with nothing yet sent, counted or granted |
| Beginnings.SegmentIs | lib/wirespaces/transports/bits/bits.cpp:532-554 | the i-th segment is the i-th piece of the caller's bytes, the last one cut short |
| AckArithmetic.ReadBack | lib/wirespaces/transports/bits/bits.cpp:449-475 | an acknowledgement is read back as written, count, grant and bitmap, or ignored when stale, while the receiver's count is at most 239 behind and 16 ahead of the transmitter's |
| AckArithmetic.ReadBackIsTight | lib/wirespaces/transports/bits/bits.cpp:449-468 | 240 behind, it is read as sixteen new segments |
| AckArithmetic.AckSays | lib/wirespaces/transports/bits/receiver_engine.cpp:296-341 | the fields of an acknowledgement: the count and the end of the grant as sequence numbers one before, and the accepted segments past the count as bits |
| EndToEnd.RunInvariant | lib/wirespaces/transports/bits/bits.cpp:438-488 | at every point of every run over the network, every acknowledgement on the wire is true of its writer and every segment is the object's |
| EndToEnd.CompleteMeansDelivered | lib/wirespaces/transports/bits/bits.cpp:481-483 | a transmitter completes only on an acknowledgement written when the sink had taken every segment of this transfer exactly once and held the object byte for byte, for objects of every size |
| Beginnings.GivenIsDelivered | lib/wirespaces/transports/bits/bits.cpp:372-402 | a transmitter that was started with some bytes and completes did so when the sink held exactly those bytes, whatever the network did |
| EndToEnd.SinkNeverWrong | lib/wirespaces/transports/bits/receiver_engine.cpp:165-168 | at every point of every run a sink of the session holds only right bytes in right places |
| EndToEnd.ProgressIsReal | lib/wirespaces/transports/bits/bits.cpp:468-476 | for objects shorter than 256 segments plus the window, everything the transmitter counts or has reported was stored by a sink of the session |
| Misreading.Reaches | lib/wirespaces/transports/bits/bits.cpp:243-297 | over the network every number of segments can be with the sink, the transmitter one behind, and the answer to the SETUP still on the wire |
| Misreading.ImaginedIffLong | docs/bits_transport.md:213-217 | some run ends with a segment counted or reported that no sink of the session has stored, if and only if the object has at least 256 segments more than the receiver's window is wide |
| Exchange.SendsNext | lib/wirespaces/transports/bits/bits.cpp:243-297 | a transmitter that hears of everything it sent sends the next segment and nothing else |
| Exchange.Stores | lib/wirespaces/transports/bits/receiver_engine.cpp:122-191 | a receiver given the next segment stores it, tells of completion if it is the last, and acknowledges |
| Lockstep.NextRound | lib/wirespaces/transports/bits/bits.cpp:243-297 | in each round the transmitter sends the next segment and nothing else, and the receiver stores and acknowledges it |
| Lockstep.TransferTakesTwoMoreRounds | lib/wirespaces/transports/bits/bits.cpp:151-190 | n segments are across, both ends completed, after n + 2 rounds, having sent the SETUP and each segment once in order, whatever the retransmission timeouts |
| Pipeline.NextBeat | lib/wirespaces/transports/bits/bits.cpp:243-297 | with any part of a window in the receiver's slots, a round in which the transmitter is called any number of times sends the next segments the grant allows, and takes one out of the slots |
| Pipeline.OneEachRound | lib/wirespaces/transports/bits/bits.cpp:151-190 | every round takes one new segment, and the slots hold exactly what was sent and not taken |
| Pipeline.WindowDelivers | lib/wirespaces/transports/bits/bits.cpp:151-190 | n segments are across, both ends completed, after n + 2 rounds, with up to a window of them waiting at once and taken out of order, the SETUP and each segment having been sent once in order |
| Beginnings.GivenGoesAcross | lib/wirespaces/transports/bits/bits.cpp:372-402 | from the call that starts a transfer: what is sent is the SETUP that announces the caller's request, then each piece of the caller's bytes once in order, and both ends complete |
| Window.Hears | lib/wirespaces/transports/bits/bits.cpp:438-488 | an acknowledgement with gaps is heard as the receiver's count, its grant and all it holds past the count |
| RingBuffer.SizeIsExactIff | lib/wirespaces/containers/ring_buffer.h:47-54 | after any calls of both threads size() is the number of items exactly when the capacity fits the index type, or exceeds its maximum by a whole number of its range |
| RingBuffer.EveryPairReached | lib/wirespaces/containers/ring_buffer.h:56-81 | some calls lead from an empty buffer to any pair of indices |
| RingBuffer.SizeBetweenLoads | lib/wirespaces/containers/ring_buffer.h:47-54 | whatever both threads do between its two loads, size() answers the items of the first less those taken by the second, wrapped into the room, and that very number exactly when no more were taken than there were |
| RingBuffer.SizeForThreads | lib/wirespaces/containers/ring_buffer.h:47-54 | asked by the producer it is the number of items at its second load, asked by the consumer the number at its first |
| RingBuffer.RingBuffer.Enqueue | lib/wirespaces/containers/ring_buffer.h:56-63 | the item goes last, or the buffer is full and unchanged |
| RingBuffer.RingBuffer.EnqueueAll | lib/wirespaces/containers/ring_buffer.h:65-72 | as many items as fit are added in order, and the answer says whether all were |
| RingBuffer.RingBuffer.Dequeue | lib/wirespaces/containers/ring_buffer.h:74-81 | the first item comes out, or the buffer is empty and nothing changes |
| RingBuffer.RingBuffer.DequeueMany | lib/wirespaces/containers/ring_buffer.h:83-89 | the first items come out in order into the caller's array, the rest of which is unchanged |
| RingBuffer.RingBuffer.Peek | lib/wirespaces/containers/ring_buffer.h:91-97 | the first item is shown and stays |
| RingBuffer.RingBuffer.Clear | lib/wirespaces/containers/ring_buffer.h:99-104 | the buffer ends empty |
| RingBuffer.ProducerKeeps | lib/wirespaces/containers/ring_buffer.h:56-63 | every atomic step of enqueue keeps the invariant whatever the consumer is in the middle of |
| RingBuffer.ConsumerKeeps | lib/wirespaces/containers/ring_buffer.h:74-97 | and every atomic step of dequeue and peek |
| RingBuffer.Linearizable | lib/wirespaces/containers/ring_buffer.h:18-24 | under every interleaving the answers are those of one bounded FIFO serving the calls in the order they take effect: full exactly with the capacity pending, empty exactly with nothing, an item always the oldest pending; items taken are a prefix of items put |
| RingBuffer.SlotsNeverClash | lib/wirespaces/containers/ring_buffer.h:60-78 | the producer never writes the slot being read nor one holding an item not yet taken |
| Crc.CrcBitwise | lib/wirespaces/crc/crc.h:42-63 | the word computed is the division remainder over bits, for any width, initial value and flags |
| Crc.ChunkingDoesNotMatter | lib/wirespaces/crc/crc.h:90-103 | init, updates over any chunks and finalize give the one-shot value |
| Crc.DifferenceIsOwn | lib/wirespaces/crc/crc.h:53-60 | two inputs drive their registers apart by exactly what their difference alone would |
| Crc.BurstsAreDetected | lib/wirespaces/crc/crc.h:42-63 | messages of one length differing only within as many consecutive bits as the register has, anywhere, have different CRCs |
| Crc.BytesAreDetected | lib/wirespaces/crc/crc.h:42-63 | in particular within two consecutive bytes, for 16 bits |
| Crc.OddErrorsAreDetected | lib/wirespaces/crc/crc.h:42-63 | no odd number of wrong bits in a message and its CRC goes unnoticed |
| Crc.CcittFalseQualifies | lib/wirespaces/crc/crc_algorithm.h:37-39 | the polynomial the Link uses has both properties, and the parameters make sense |
| CrcCheck.PolynomialIs | lib/wirespaces/crc/crc_algorithm.h:37-39 | the polynomial is x^16 + x^12 + x^5 + 1: sixteen coefficients, set exactly at 12, 5 and 0 |
| CrcCheck.CheckValue | lib/wirespaces/crc/test/crc_test.cpp:24-28 | the CRC of the digits one to nine is 0x29B1 |
| Hdlc.StuffRoundTrip | lib/wirespaces/links/uart_hdlc/encoder.h:76-84 | stuffing hides every flag and unstuffing undoes it |
| Hdlc.DecoderIsExact | lib/wirespaces/links/uart_hdlc/decoder.h:76-116 | on every stream the decoder yields exactly the payloads of the pieces between flags that are whole, within capacity and carry the right checksum |
| Hdlc.YieldsIff | lib/wirespaces/links/uart_hdlc/decoder.h:62-93 | a piece yields a payload exactly when, freed of escapes, it is that payload followed by its checksum, low byte first, and the payload is neither empty nor past the capacity |
| Hdlc.EscapesAre | lib/wirespaces/links/uart_hdlc/encoder.h:76-84 | 0x7E goes out as 0x7D 0x5E, 0x7D as 0x7D 0x5D, and every other byte as it is |
| Hdlc.FrameDecodes | lib/wirespaces/links/uart_hdlc/decoder.h:82-93 | from any state an encoded frame ends what was going on and yields its payload |
| Hdlc.StreamRoundTrip | lib/wirespaces/links/uart_hdlc/decoder.h:76-116 | payloads encoded one after another come out exactly, in order |
| Hdlc.Resynchronizes | lib/wirespaces/links/uart_hdlc/decoder.h:82-93 | and after any noise, which at most completes one frame of its own |
| HdlcCrc.DamagedPayloadDropped | lib/wirespaces/links/uart_hdlc/decoder.h:62-73 | a frame whose payload was damaged within two consecutive bytes is never yielded |
| HdlcCrc.OddDamageDropped | lib/wirespaces/links/uart_hdlc/decoder.h:62-73 | nor one with an odd number of wrong bits anywhere in payload and CRC |
| HdlcCrc.DigitsFrame | tools/test/test_receiver.py:54-56 | the digits one to nine go out between two flags followed by 0xB1 0x29 |
| HdlcCodec.Compute | lib/wirespaces/crc/crc.h:82-88 | the C++ checksum is the CRC of the payload |
| HdlcCodec.Crc16CcittFalse | tools/wirespaces/receiver.py:100-111 | the Python checksum, with its own initial value and polynomial and masked after each shift, is the same number |
| HdlcCodec.EncodedSize | lib/wirespaces/links/uart_hdlc/encoder.h:52-65 | the size is the length of the encoding, or zero for an empty payload |
| HdlcCodec.EncodeFrame | lib/wirespaces/links/uart_hdlc/encoder.h:67-102 | the buffer starts with the encoding and is otherwise untouched, or is wholly untouched when it does not fit |
| HdlcCodec.EncodeHdlcFrame | tools/wirespaces/receiver.py:114-126 | the Python encoder gives the same bytes |
| HdlcCodec.HdlcDecoder.Accept | lib/wirespaces/links/uart_hdlc/decoder.h:76-116 | one byte moves the fixed-buffer decoder as the frame language says; a waiting frame is kept |
| HdlcCodec.HdlcDecoder.HasValidCrc | lib/wirespaces/links/uart_hdlc/decoder.h:62-73 | the check accepts exactly bodies whose last two bytes are their CRC |
| HdlcCodec.HdlcDecoder.Drain | lib/wirespaces/links/uart_hdlc/decoder.h:39-45 | with each frame consumed at once, a stream yields its frames |
| HdlcCodec.HdlcStreamDecoder.Feed | tools/wirespaces/receiver.py:138-182 | a chunk yields its frames and leaves the state for the next chunk |
| HdlcCodec.DecodersAgree | tools/wirespaces/receiver.py:138-182 | one decoder given a whole stream and the other given it in any chunks yield the same frames: those of its valid pieces |
| Graph.OneDirection | lib/wirespaces/core/router.h:27 | in a graph of bridges each attachment has one near side seen from a host |
| Graph.OneWayIn | lib/wirespaces/core/router.h:27 | and one attachment leads to each node |
| Graph.BridgesAreTheOnlyWay | codegen/wiring_topology.py:39-41 | a path of bridges is the only path between its ends |
| Graph.GoneRound | codegen/wiring_topology.py:49-54 | an attachment on a path that is not a bridge gives a second path |
| Graph.AddLeaf | codegen/wiring_topology.py:88-91 | hanging a new node on by one attachment makes no cycle |
| GraphSearch.Explore | codegen/wiring_topology.py:41 | a search from a node reaches what is connected to it and nothing else, and leaves a way back from each |
| GraphSearch.Bridges | codegen/wiring_topology.py:30 | taking each attachment away in turn finds exactly the bridges |
| GraphSearch.TreeByCount | codegen/wiring_topology.py:106-107 | where everything is in reach of a node there are no cycles exactly when there are as many attachments as other nodes |
| GraphSearch.PieceIsTree | codegen/wiring_topology.py:122-123 | counting the nodes and attachments in reach of a node tells whether its piece has no cycles |
| Topology.OnlyIffBridges | codegen/wiring_topology.py:35-57 | a path is the only one exactly when all it uses are bridges |
| Topology.Climb | codegen/wiring_topology.py:46-56 | climbing to the root succeeds exactly when the path found is all bridges, and takes what it uses |
| Topology.Infer | codegen/wiring_topology.py:35-57 | inference succeeds exactly when each member is joined to the first by one path only, and selects the union of those paths, whichever search tree was used; each refusal names its cause |
| Topology.InferredIsTree | codegen/wiring_topology.py:35-57 | what is inferred is a tree over the members with no dangling Link |
| Topology.Chain | codegen/wiring_topology.py:71-93 | a chain is accepted exactly when every hop is good and selects its own interfaces; each refusal names what is wrong |
| Topology.Realization | codegen/wiring_topology.py:95-108 | an exact realization is accepted exactly when its interfaces are known and form a tree without dangling Links, and selects just those; a refusal names its cause |
| Topology.Legacy | codegen/wiring_topology.py:110-125 | whole Links are accepted exactly when each serves two hosts and they form a tree with the members, although only the root's piece is checked for cycles; what is selected is all their interfaces |
| Topology.ResolveWire | codegen/wiring_topology.py:128-158 | by every mode a Wire is resolved exactly when it is acceptable, and what is selected is what it asks for: the interfaces of the path or realization, all interfaces of its Links, or the only paths between its members; that is a tree over the members, and the other hosts it touches are its transit hosts |
| Topology.TreeReachesMembers | codegen/wiring_topology.py:128-158 | a resolved Wire attaches every member, and is empty only when there is one |
| Projection.AssignBits | codegen/wiring_projection.py:15-26 | every interface gets its own bit below eight, pinned ones theirs, others the least left by name |
| Projection.SortByBit | codegen/wiring_projection.py:27 | the interfaces by ascending bit, all of them |
| Projection.MaskOf | codegen/wiring_projection.py:32-33 | adding the masks of the selected interfaces sets exactly their bits |
| Projection.ProjectHost | codegen/wiring_projection.py:14-36 | a host is refused exactly for more than six memberships, and otherwise holds a row with the selected bits for each Wire it carries or belongs to |
| Projection.ProjectionLowers | codegen/wiring_projection.py:30-35 | the tables of all hosts together carry out every Wire's selection |
| Projection.CompiledWireCarriesOnce | codegen/wiring_projection.py:10-37 | on every Wire of a projected deployment whose attachments form a tree, each Link carries a packet once, every other participant admits one copy and every other member dispatches it once |
| Forwarding.FoldIsVerdict | lib/wirespaces/core/forwarding.h:19-23 | the folded admission depends only on which answers there were: all, some or none accepted, and the worst reason |
| Router.Forward | lib/wirespaces/core/router.cpp:11-31 | the table scan on masks decides as the row of the Wire says about interface bits |
| Router.RouteIs | lib/wirespaces/core/router.cpp:11-31 | each decision about a Wire with a row is made exactly under its condition: not let in from an interface outside the row, nowhere to go when that is the only one, else out by all the others, or by all when it is the host's own |
| Router.UnknownWire | lib/wirespaces/core/router.cpp:11-31 | a Wire without a row has no route, from any ingress there can be |
| Router.Receive | lib/wirespaces/core/router.cpp:38-50 | delivery only for a packet that routing let in, at a member, and always then when the forwarder reports what became of it at the Links |
| Router.FanOutTo | codegen/wiring_codegen.py:106-116 | each selected interface, and no other, is asked once in order; the result is what their answers come to |
| Router.ChosenIsExact | codegen/wiring_codegen.py:112-115 | the interfaces asked are all the selected ones, without repetition |
| Router.Dispatch | lib/wirespaces/core/dispatch.cpp:44-73 | a packet is offered once, in table order, to exactly the receivers the host owes it; the result is accepted exactly when one of them accepted, full exactly when none did and one was full, and no endpoint exactly when there was none |
| Flooding.OneSender | lib/wirespaces/core/router.cpp:24-28 | only one attachment of a Link is on the origin's side |
| Flooding.SelectedArrival | lib/wirespaces/core/router.cpp:16-29 | a host sends an arrival on by all its other selected attachments |
| Flooding.StrayArrival | lib/wirespaces/core/router.cpp:17-23 | and an arrival at any other attachment nowhere |
| Flooding.SelectedStep | lib/wirespaces/core/router.cpp:38-50 | handling any waiting arrival keeps all counters counts of sets |
| Flooding.ExactlyOnce | lib/wirespaces/core/router.cpp:11-50 | when nothing waits, whatever the order was, each selected Link has carried the packet exactly once and no other Link has, every other participant has admitted exactly one copy, and exactly the other members have dispatched it, once |
| Flooding.NeverTwiceAndHalts | lib/wirespaces/core/router.h:27 | at no moment is anything done twice, and no more arrivals are handled than there are interfaces |
| Delivery.OfferedOnce | lib/wirespaces/core/dispatch.cpp:44-73 | when nothing waits, a receiver has been offered the packet exactly once if its host is another member that owes it the packet, and never otherwise |
| Delivery.BroadcastReachesAll | lib/wirespaces/core/dispatch.cpp:44-73 | a packet to 0xFF is offered once to every receiver in place under its endpoint at every other member, and to nobody else |
| Delivery.AddressedReachesFirst | lib/wirespaces/core/dispatch.cpp:44-73 | any other packet is offered once to the first receiver in place under its endpoint at the other member of that id, and to nobody else |
| Delivery.NeverOfferedTwice | lib/wirespaces/core/dispatch.cpp:44-73 | at no moment has any receiver been offered it twice |
| Compiler.BuildGraph | codegen/wiring_topology.py:21-29 | the graph has every interface of every host, by its reference, and nothing else |
| Compiler.ResolveAll | codegen/wiring_topology.py:133-158 | all Wires are resolved exactly when each can be laid as it asks, each by what it asks for, which is a tree over its members |
| Compiler.Compile | codegen/wiring_topology.py:128-158 | compilation succeeds exactly when every declared path and realization is good, every Wire can be laid as it asks and no host belongs to more than six; each Wire then selects what its author asked for, and the tables carry that out |
| Compiler.AuthoredLinksCarry | codegen/wiring_topology.py:133-158 | the Links that carry a compiled Wire are exactly those its author listed, or those of the interfaces its author listed |
| Compiler.EveryPacketArrivesOnce | codegen/wiring_projection.py:10-37 | from authored deployment to packets: on every Wire of it the Links its author listed, and no others, carry a packet, once each, and exactly the receivers it is owed to are offered it, once |
| Compiler.OneAddressee | lib/wirespaces/core/dispatch.cpp:44-73 | a packet to one host is owed to at most one receiver of the whole deployment |

## Left out

- The BITS byte codec: messages are a datatype in which the codec's length, reserved-byte and type checks appear as malformed cases.
- Packet headers: connection matching, QoS, and empty packets; the endpoints see messages that matched.
- Callbacks that call back into an endpoint, and sending sideband datagrams from either end, which changes no transfer state.
- The transmit packet of a receiver: whether it could be prepared, and what its Link answered, are parameters of each call.
- EndToEnd.CompleteMeansDelivered: assumes no earlier traffic or receiver state of the same session, as the documentation does; a sink that accepts a segment is taken to have stored it.
- Pipeline.WindowDelivers: nothing is lost or sent again; what loss can do is bounded by the safety theorems and SenderRuns.SilentPeerBound, not by a progress theorem.
- The graph library's own algorithms: `GraphSearch` computes the same answers by simpler ones, and `Topology.Infer` holds for any search tree.
- Parsing and validation of deployments: unique names, identifiers and attachments, and at most eight interfaces to a host, are preconditions.
- Diagnostics: problem kinds are kept, wording and ambiguity witnesses are not.
- Flooding: Links accept everything and lose nothing; partial admission on a branched Wire and its retries are not modelled.
- Memory ordering in the ring buffer: index accesses are sequentially consistent, as the source's default atomics are, and a slot access is one step.
- Concurrent clear().
- CAN, mailboxes, endpoint queues, service endpoints, host tools and platform code.
