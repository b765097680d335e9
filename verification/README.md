# A verified model of the MISRC capture core

MISRC captures raw RF and audio from an HDMI or USB stream. Its core is a handful of C
files that must not lose, duplicate or reorder a byte. This project models them in Dafny
and proves what they keep over every run. `CTypes` holds the C integer types.

* **The double-mapped ring** (`RingArith`, `RingMachine`, `RingInvariant`, `RingTheorems`,
  `RingEverySchedule`, `RingEvents`, `RingRequests`, `RingConsumerRuns`, `RingGrants`,
  `RingSchedules`). One producer and one consumer run as interleaved atomic accesses:
  separate loads of `head` and `tail`, byte-by-byte copies, and the three separate updates
  of `rb_read_finished`, with `size_t` arithmetic modulo 2^64 and both events with their
  sticky flags. Either side may let a grant lapse and ask again, and a read may be finished
  with any size, as the loops of misrc_tools/misrc_capture/misrc_capture.c:935-960 and
  1726-1742 do; `Orderly` singles out consumers that release exactly what they were granted.
  `Run` executes any list of such steps. The history values `sent` and `got`
  are the committed and the consumed stream. `RingBuffer` is the same code called without
  interference, as a class over an array, `RingWriter` its drain loop, and `BufferManager`
  the begin/end protocol with its counters.
* **The DdD test-stream validators** (`SequenceValidator`, `SequenceTheorems`,
  `RampValidator`). The C loops are methods of classes with the C fields, tied to a fold of
  a one-sample step. Separate closed forms, `Wave` and `RampValue`, say which streams are
  right, and the theorems show that the validators recognise exactly those.
* **The DdD collection protocol** (`Collection`, `CollectionWire`) over control transfers that fail, where a
  failed transfer may have taken effect and an acknowledged register write may not have.
  The methods over a device object are tied to functions on values, and the statements
  about runs and about all fates of the transfers are made of those. `CollectionWire` sets
  them against a device that sees nothing but the numbers on the wire.
* **The frame parser and the capture callback** (`FrameParser`, `FrameErrors`,
  `FrameTheorems`, `Capture`, `FrameWire`). Lines are byte sequences; the CRC and the idle
  check of the hsdaoh library, the two tolerances and the threshold are parameters.
  `FrameErrors` says in bytes what an error is, `FrameWire` how a sender lays out a line.
* **argv permutation** (`Permute`, `Getopt`, `GetoptRoles`): the block-swap rotation on an
  array, the scan in PERMUTE order, and the role of every element.
* **The CPU-list parser** (`CpuList`, `CpuListText`) against a grammar given by existential
  quantifiers and the decimal spelling of numbers.

What the proofs found in the code:

* A write grant is safe for every behaviour of the consumer exactly when, at the head load,
  the ring is not full, or the request is no larger than the rest of the first mapping or
  than a read already on its way, or it is larger than the ring (`RingGrants.HeadLoadExact`).
  Otherwise, in a ring of any capacity from 2 up, the consumer can receive bytes that were
  never committed (`RingSchedules.FullHeadLoadCorrupts`). A consumer that only ever releases
  exactly what it was granted does not change this, nor the next point.
* `rb_write_finished` can refuse a write that was granted. It is sure to commit exactly when
  `tail` is below the capacity at the call, or the consumer is just taking a lap off it and
  has left data in the ring (`RingGrants.FinishExact`). `bufmgr_write_end` ignores the
  refusal, so the block is lost although it is counted and announced
  (`RingSchedules.GrantedWriteCanBeRefused`), and from then on the counters disagree with
  the ring (`BufferManager.Buffer.WriteEnd`).
* No wake-up is lost and no access leaves the mappings in any interleaving, with safe head
  loads or without (`RingEverySchedule`).
* `bufmgr_read_begin` throws away the probe made after the wait that exhausts its timeout,
  even a successful one. So, however long the timeout, a read is sure to return data that
  arrives within it exactly when the data is there at the call or can never be
  (`BufferManager.TimedReadExact`).
* With stream numbers but no CRC, the parser takes the stream of a line from the last word
  before the trailer, which payload or idle words may occupy (`FrameWire.StreamWithoutCrc`).
* A test ramp that fails at its legacy wrap is reported as expecting 1024, a value that no
  sample can have; 0 would have been right (`RampValidator.RampErrorExact`,
  `RampValidator.LegacyWrapReport`).
* `rb_writer_run` leaves whole blocks behind if they become available between the failed
  probe and the count of the remaining bytes (`RingWriter.BlockLeftBehind`); it leaves
  nothing if the other side stops before the exit condition holds
  (`RingWriter.StoppedPeerLosesNothing`).
* `ddd_collection_start_v1` forgets an earlier session: it keeps every collecting device known
  to the host, whatever becomes of its transfers, exactly when the device is not collecting
  (`Collection.StartKeepsTrackExactly`); as far as the host itself can tell, exactly when it
  has attempted no start (`Collection.HostStartsSafelyExactly`). After a forgotten session stop and rollback report
  success while the device goes on collecting (`Collection.ForgottenSession`).

Where code and comments disagree the model follows the code. The comment on the collection
protocol (misrc_tools/common/ddd_protocol.h:273-275) says every partial start is rolled back
to a stop request; the code sends stop only if the start request went out. The comment on
`frame_process` (misrc_tools/common/frame_parser.h:178) says that the first two frames after
synchronisation count no errors; the code suppresses errors only for one frame after a
counter gap and two after an idle burst. A fresh parser holds counter 0 as the last one, so
it takes a first frame with counter 0 for a duplicate
(`FrameTheorems.CounterZeroIsDuplicate`).

`dafny verify dfyconfig.toml` checks the whole project.

## Model

| member | source | states |
|---|---|---|
| RingTheorems.RunIsFifo | misrc_tools/common/ringbuffer.c:145-204 | in every interleaving whose write requests load head safely in the sense of HeadLoadExact, the consumer has a prefix of the committed stream, every unread byte is intact in the cell of its stream position, a granted write region lies in the mappings, starts at the true write position and shares no cell with an unread byte, and a granted read region shows the oldest unread bytes |
| RingGrants.HeadLoadExact | misrc_tools/common/ringbuffer.c:145-204 | wherever the consumer stands when head is loaded, the request gets only free bytes whatever the consumer does before the tail load, if and only if the ring is not full at the head load, or the size is at most the rest of the first mapping or what the consumer is bound to release first, or it exceeds the capacity; the condition is the same if the consumer releases only what it was granted |
| RingGrants.SafeLoadGrantsFree | misrc_tools/common/ringbuffer.c:145-159 | the safe half for one given behaviour of the consumer: after a safe head load the request is granted only free bytes |
| RingConsumerRuns.WrapFromAnywhere | misrc_tools/common/ringbuffer.c:194-204 | once tail has reached the second mapping, the consumer, asking before each read and releasing exactly what it was granted, can take a whole lap off it from wherever it stands in its calls, consuming no more than what it is bound to and what brings head to the second mapping |
| RingInvariant.GrantIsFree | misrc_tools/common/ringbuffer.c:146-158 | whatever happened since a safe head load, a tail load that passes the tests leaves room for the whole request below the end of the second mapping |
| RingInvariant.StepKeepsInv | misrc_tools/common/ringbuffer.c:145-204 | every atomic step of either side keeps positions, data and ownership, provided head loads are safe |
| RingGrants.HalfWrappedProbe | misrc_tools/common/ringbuffer.c:149-157 | between the two subtractions with data left, the computed room underflows to nearly 2^64, acceptance depends only on the end of the mapping, and what is accepted is free |
| RingGrants.FinishExact | misrc_tools/common/ringbuffer.c:161-176 | a granted non-empty write is committed whatever the consumer does between the two loads of rb_write_finished, if and only if at the call tail is below the capacity, or the consumer stands between its two subtractions with data left in the ring; again it makes no difference if the consumer releases only what it was granted |
| RingGrants.FinishRefusesExactly | misrc_tools/common/ringbuffer.c:161-176 | seen from inside the call, the commit is refused exactly when a lap was taken off tail between the two loads, or both loads fell between the two subtractions of a read that emptied the ring |
| RingEverySchedule.NoFault | misrc_tools/common/ringbuffer.c:145-204 | in every interleaving, safe head loads or not, copying into a granted block and advancing head stay inside the two mappings, and no more is consumed than was committed |
| RingGrants.ConsistentProbe | misrc_tools/common/ringbuffer.c:145-192 | outside a half-finished wrap the code's tests decide exactly by the amount of room or data |
| RingEverySchedule.NoLostWakeup | misrc_tools/common/buffer_manager.c:404-521 | in every interleaving, safe head loads or not, a side blocked on its event while its request would succeed has its flag set, or the peer is still inside the call that ends with the signal |
| RingEverySchedule.NoDeadlock | misrc_tools/common/buffer_manager.c:404-521 | in every interleaving both sides can be blocked with both flags clear only if the two requests together exceed the capacity by more than one byte |
| RingEvents.FlagIsUnusedSignal | misrc_tools/common/rb_event.c:90-134 | in every run an event's flag is up exactly if its last signal has not woken anyone yet |
| RingEvents.WakeNeedsSignal | misrc_tools/common/rb_event.c:99-134 | a wake-up uses up a signal of its own, sent since the last wake-up |
| RingRequests.RunHoldsRequests | misrc_tools/common/ringbuffer.c:145-204 | in every run the committed stream is the blocks of the committed requests in order, as many bytes are consumed as the accepted ends of reads asked for, and through waits and retries each side keeps the request that it was called with |
| RingRequests.EveryCallEnds | misrc_tools/common/buffer_manager.c:404-521 | in every run a write request ends only by being given up or by the signal after its end, a read request only by being given up or finished, and every end of a read, accepted or refused, by its signal |
| RingRequests.StepsInOrder | misrc_tools/common/ringbuffer.c:145-204 | in every run each side takes its steps in the order of the code; in particular every wait, served or timed out, is followed by a probe that loads both words anew |
| RingSchedules.OvergrantIsReachable | misrc_tools/common/ringbuffer.c:146-157 | from an empty ring of any capacity from 2 up a schedule, with a consumer that asks before each read and releases exactly what it was granted, grants the whole capacity while a byte is still unread |
| RingSchedules.FullHeadLoadCorrupts | misrc_tools/common/ringbuffer.c:146-159 | from an empty ring of any capacity from 2 up there is a schedule with such a consumer after which it has received a byte that was never committed |
| RingSchedules.GrantedWriteCanBeRefused | misrc_tools/common/ringbuffer.c:161-176 | from an empty ring of any capacity there is a schedule with such a consumer in which the commit of a granted write is refused although the ring is empty and nothing happens between its two loads |
| RingBuffer.MapGuardsNeverFire | misrc_tools/common/ringbuffer.c:155-190 | in a normalised ring the tests against the end of the mapping never refuse anything |
| RingBuffer.Ring.Put | misrc_tools/common/ringbuffer.c:127-143 | appends the data to the queue and returns 0 exactly if it fits, else changes nothing and returns 1 |
| RingBuffer.Ring.WritePtr | misrc_tools/common/ringbuffer.c:145-159 | returns the write position exactly if the request fits into the free room |
| RingBuffer.Ring.Copy | misrc_tools/common/ringbuffer.c:141 | a copy into a grant leaves the queue alone and shows contiguously through the mirror |
| RingBuffer.Ring.WriteFinished | misrc_tools/common/ringbuffer.c:161-176 | a write that fits always commits and appends the bytes behind the write position |
| RingBuffer.Ring.ReadPtr | misrc_tools/common/ringbuffer.c:178-192 | returns a contiguous view of the queue's first bytes exactly if there are enough |
| RingBuffer.Ring.ReadFinished | misrc_tools/common/ringbuffer.c:194-204 | removes exactly that many bytes from the front, or refuses without change, and keeps head below the capacity |
| RingWriter.RbWriterRun | misrc_tools/common/ringbuffer_writer.c:38-83 | file and ring together always hold in order what was in the ring and every block that it accepted at its moment; nothing is left exactly when what was left at the last failed probe and the block accepted before the final count fall short of a block and nothing was accepted during the drain; what is left is what had come before the count, or else what came during the drain |
| RingWriter.StoppedPeerLosesNothing | misrc_tools/common/ringbuffer_writer.c:47-66 | if the other side offers nothing any more whenever the exit condition holds, nothing arrives after the last failed probe, so nothing is left behind |
| RingWriter.BlockLeftBehind | misrc_tools/common/ringbuffer_writer.c:45-66 | on an empty ring a block that arrives between the failed probe and the final count is left behind and the file stays empty |
| RingWriter.FinalDrain | misrc_tools/common/ringbuffer_writer.c:47-66 | the final drain writes everything short of a block and leaves everything if the block offered before the count and accepted completes one; a block offered before the last probe is accepted if it fits and stays |
| BufferManager.Buffer.WriteBegin | misrc_tools/common/buffer_manager.c:375-439 | succeeds after the first wait that makes room, with as many counted waits; a refusal counts one drop and, unless waiting is forbidden, one wait more than the attempts allowed; the queue loses at its front exactly what the peer took during the waits |
| BufferManager.FirstFitExact | misrc_tools/common/buffer_manager.c:404-436 | the wait reported is the first at which the request fits, and none fits when none is reported |
| BufferManager.Buffer.WriteEnd | misrc_tools/common/buffer_manager.c:441-454 | tells the observer the position before the bytes and counts them whether the ring takes them or not; the ring takes them exactly if they fit, and exactly then the counters go on agreeing with it |
| BufferManager.TilesCoverOnce | misrc_tools/common/buffer_manager.c:444-448 | the observer's calls cover every written position exactly once, in order |
| BufferManager.Buffer.ReadBegin | misrc_tools/common/buffer_manager.c:470-509 | succeeds exactly if data is there at once or at a probe before the wait that exhausts the timeout; otherwise it counts all waits and one timeout; with a negative timeout it returns at the first wait that brings enough; the queue keeps its bytes and gains exactly what arrived during the waits |
| BufferManager.FirstReadyExact | misrc_tools/common/buffer_manager.c:480-505 | the wait reported is the first after which enough data is there, and after none of the waits that count is there enough when none is reported |
| BufferManager.LastProbeThrownAway | misrc_tools/common/buffer_manager.c:488-505 | a read fails with enough data in the ring exactly when the data became enough during the wait that exhausted the timeout |
| BufferManager.TimedReadExact | misrc_tools/common/buffer_manager.c:480-505 | over everything that may arrive within a timeout of any length, the read is sure to return what arrives in time if and only if the data is there at the call or the request exceeds the ring |
| BufferManager.LastWaitExact | misrc_tools/common/buffer_manager.c:480-503 | the wait that exhausts a timeout is the first at which steps of 20 ms reach it |
| BufferManager.Buffer.ReadEnd | misrc_tools/common/buffer_manager.c:511-521 | counts the bytes in any case; the ring gives them exactly if it has them, and exactly then the counters go on agreeing with it |
| BufferManager.Buffer.FillLevel | misrc_tools/common/buffer_manager.c:577-584 | the fill level is the length of the queue, and bytes written minus bytes read as long as the counters agree with the ring |
| BufferManager.Buffer.Reset | misrc_tools/common/buffer_manager.c:343-356 | empties the ring, clears every counter, and positions start anew |
| SequenceValidator.Validator.Feed | misrc_tools/common/ddd_protocol.c:662-737 | consumes the words up to the first offence and leaves the state of the one-sample fold, with the marker limit derived anew |
| SequenceValidator.FoldConcat | misrc_tools/common/ddd_protocol.c:672-737 | the fold of the one-sample steps can be cut anywhere; with Feed, which shows the C loop and its derived marker limit to be this fold, two calls leave exactly the state that one call with both parts leaves |
| SequenceTheorems.AcceptsExactly | misrc_tools/common/ddd_protocol.c:646-737 | from the initial state a stream is accepted exactly if its markers follow a first run of 1 to 65536 samples and then runs of one length, 65535 or 65536, each one marker further modulo 63 |
| SequenceTheorems.ErrorIndexExact | misrc_tools/common/ddd_protocol.c:652-660 | on a mismatch a prefix is a right stream exactly if it is no longer than the reported error index |
| SequenceTheorems.ErrorMarkersExact | misrc_tools/common/ddd_protocol.c:652-660 | on a mismatch the actual marker is that of the offending sample, and a sample with the expected marker in its place would have made a right stream; marker 63 is reported against 0 |
| SequenceTheorems.MarkerOfWord | misrc_tools/common/ddd_protocol.c:675 | the marker is the upper six bits of a sample word |
| SequenceTheorems.FoldWave | misrc_tools/common/ddd_protocol.c:672-736 | on a right stream every field of the state is determined by the position |
| SequenceTheorems.LossDetection | misrc_tools/common/ddd_protocol.c:705-733 | once the run length is learned, losing d samples is reported within one run of further samples if d is not a multiple of 63 runs, and is never reported if it is |
| SequenceTheorems.LostPacketsNew | misrc_tools/common/ddd_protocol.h:80-84 | with runs of 65535 a loss of packets of 2^k samples is a multiple of 63 runs only if the number of packets is a multiple of 63*65535 |
| SequenceTheorems.LostPacketsLegacy | misrc_tools/common/ddd_protocol.h:80-84 | with runs of 65536 losing 63*2^(16-k) packets of 2^k samples is a whole period |
| RampValidator.Ramp.Feed | misrc_tools/common/ddd_protocol.c:754-787 | consumes the words up to the first offence and leaves the state of the one-sample fold |
| RampValidator.RampFoldConcat | misrc_tools/common/ddd_protocol.c:762-786 | the same for the ramp: with Feed, two calls leave exactly the state that one call with both parts leaves |
| RampValidator.RampAcceptsExactly | misrc_tools/common/ddd_protocol.c:754-787 | a stream is accepted exactly if it is empty or counts up by one modulo 1021 throughout or modulo 1024 throughout, from a start below the modulus |
| RampValidator.RampErrorExact | misrc_tools/common/ddd_protocol.c:744-752 | on a mismatch the index is the length of the longest prefix that is a ramp, the actual value is that of the sample there, and a sample with the expected value modulo 1024 in its place would have made a ramp |
| RampValidator.ValueOfWord | misrc_tools/common/ddd_protocol.c:764 | the value is the lower ten bits of a sample word |
| Collection.Link.RestoreSafeDefaults | misrc_tools/common/ddd_protocol.c:498-525 | all four transfers always go out; OK means all were acknowledged and the device is at test off and full rate |
| Collection.Session.Rollback | misrc_tools/common/ddd_protocol.c:527-554 | stop goes out exactly if a start was attempted, then the four restoring transfers; OK from a tracked state means a stopped device at safe defaults, and tracking is kept whatever fails |
| Collection.Session.Configure | misrc_tools/common/ddd_protocol.c:585-607 | OK means the four transfers went out in order and the device holds the requested settings |
| Collection.Session.Launch | misrc_tools/common/ddd_protocol.c:608-616 | OK means the device collects; a failure goes on with stop and restore, and either way the host tracks the device |
| Collection.Session.Start | misrc_tools/common/ddd_protocol.c:556-616 | OK means the six transfers in the documented order and a collecting device at the requested settings; a host that believes nothing is started, and is right, keeps tracking; otherwise tracking holds afterwards if and only if the device was not collecting or the start request went out |
| Collection.StartKeepsTrackExactly | misrc_tools/common/ddd_protocol.c:556-616 | over all fates of the transfers, a start leaves no collecting device unknown to the host if and only if the device is not collecting |
| Collection.HostStartsSafelyExactly | misrc_tools/common/ddd_protocol.c:556-616 | for every consistent host state, a start leaves no collecting device unknown, whatever the device that the host is right about and whatever becomes of the transfers, if and only if the host has attempted no start |
| Collection.ForgottenSession | misrc_tools/common/ddd_protocol.c:527-637 | after a successful start, a start with an unsupported factor makes the host forget the device: stop reports success without a transfer and rollback reports success, while the device goes on collecting |
| Collection.Session.Stop | misrc_tools/common/ddd_protocol.c:618-637 | keeps tracking, and OK from a tracked state means a stopped device |
| Collection.Session.RunAll | misrc_tools/common/ddd_protocol.c:527-637 | any list of calls goes as the functions on values say, call by call, with their results and transfers |
| Collection.RunKeepsTrack | misrc_tools/common/ddd_protocol.c:527-637 | over every run that starts only when the host believes nothing is started, with any transfer failures, after every call a collecting device is known to the host, every reported start sent the six transfers in order and left the device collecting at the requested settings, every reported stop a stopped device, every reported rollback safe defaults |
| CollectionWire.RunIsObeyed | misrc_tools/common/ddd_protocol.c:166-169 | over every run, with any fates, the device is the fold of the transfers that took effect, as a device obeys them that sees only request B5 with value 1 or 0 and request B8 with a register in the upper byte and its value in the lower |
| CollectionWire.OrdersOnTheWire | misrc_tools/common/ddd_protocol.c:498-616 | the transfers of a start, a stop and the restoring sequence in numbers |
| CollectionWire.ConfigureEndsExactly | misrc_tools/common/ddd_protocol.c:585-607 | the configuration sends a prefix of its order, all acknowledged but perhaps the last; it fails with a control failure exactly if the last was not, and with a mismatch exactly if the device answered something else than what was written |
| CollectionWire.StartResultExact | misrc_tools/common/ddd_protocol.c:556-584 | when a start is refused for its factor or for the identity, in numbers, and all fields that a successful start leaves with the host |
| CollectionWire.StartLogExact | misrc_tools/common/ddd_protocol.c:585-616 | what a failed start sends: after the configuration the restoring transfers, after an unacknowledged start request a stop and the restoring transfers |
| CollectionWire.StopExact | misrc_tools/common/ddd_protocol.c:618-637 | the transfer, the result and the host state of every stop |
| CollectionWire.RollbackExact | misrc_tools/common/ddd_protocol.c:527-554 | the transfers, the result and the host state of every rollback |
| FrameParser.ParseLine | misrc_tools/common/frame_parser.c:110-139 | a valid line's payload is at most 4095 words and leaves room for the trailer |
| FrameParser.Parser.ScanLines | misrc_tools/common/frame_parser.c:320-369 | the line loop computes the fold of one-line steps up to the first line that does not parse |
| FrameParser.Parser.Process | misrc_tools/common/frame_parser.c:264-450 | result and every field of the new state are those of the one-frame step |
| FrameTheorems.ValidExactly | misrc_tools/common/frame_parser.c:374-447 | a frame is valid exactly if synchronised on entry, magic good, counter new, all lines parse, each error total within its tolerance and the idle total below the burst threshold |
| FrameErrors.FrameOutcome | misrc_tools/common/frame_parser.c:303-450 | for a frame of well-formed lines with a new counter, result and every field of the new state in terms of the wrong CRCs and the idle errors in its bytes: when it is valid, reported, a burst, or acquires synchronisation, with all counters |
| FrameErrors.LinesExact | misrc_tools/common/frame_parser.c:320-369 | the line loop counts as CRC errors exactly the lines whose last word but one differs from the CRC of the line before (or the one before that), and as idle errors those that the idle check finds in the words between payload and trailer, neither while suppressed |
| FrameErrors.CrcDecides | misrc_tools/common/frame_parser.c:344-353 | without CRC tolerance an unsuppressed frame without idle errors is valid exactly if every line carries the CRC that is due |
| FrameErrors.MalformedOutcome | misrc_tools/common/frame_parser.c:326-332 | what a frame with a malformed line leaves behind |
| FrameErrors.EarlyOutcome | misrc_tools/common/frame_parser.c:279-293 | what a frame with bad magic or a repeated counter leaves behind |
| FrameErrors.ParseLineExact | misrc_tools/common/frame_parser.c:110-139 | the fields of a line in bytes, and when it is well formed |
| FrameWire.LineRoundTrip | misrc_tools/common/frame_parser.c:110-139 | from a line laid out by a sender the parser gets back length, CRC and stream, the copy loop the payload, and the idle check the idle words |
| FrameWire.StreamRoundTrip | misrc_tools/common/frame_parser.c:452-494 | from the lines of a frame the copy loop takes for each stream exactly the payloads sent for it, in order |
| FrameWire.StreamWithoutCrc | misrc_tools/common/frame_parser.c:129-132 | with streams but no CRC the stream is read from the last word before the trailer |
| FrameTheorems.ValidNeedsAcquisition | misrc_tools/common/frame_parser.c:279-443 | over every run from a fresh parser a valid frame has an earlier frame that acquired synchronisation at the end of a chain with more than the threshold of counter successors, the first measured against the counter the parser held, duplicates not counted, and no bad magic since |
| FrameTheorems.CounterZeroIsDuplicate | misrc_tools/common/frame_parser.c:289-293 | a fresh parser takes exactly a frame with good magic and counter 0 for a duplicate, and stays fresh after any number of them |
| FrameTheorems.CrcRegisters | misrc_tools/common/frame_parser.c:356-358 | after two lines with CRC the registers hold the CRCs of the last two lines |
| FrameTheorems.CrcSelfSync | misrc_tools/common/frame_parser.c:343-372 | a suppressed frame with CRC, two lines or more and all parsed leads to the same state, result and later runs from any CRC registers |
| FrameTheorems.GapResynchronises | misrc_tools/common/frame_parser.c:303-314 | in the frame after a gap the line loop gives the same tally from any CRC registers |
| Capture.ValidCounts | misrc_tools/common/frame_parser.c:361-368 | for every valid frame the two byte counts are the lengths of the two streams' payloads |
| Capture.CopyPayloads | misrc_tools/common/frame_parser.c:452-494 | writes the payloads of each wanted stream in line order without gap, skipping the audio lines that the filter holds back |
| Capture.Handler.AudioFilter | misrc_tools/common/frame_parser.c:598-644 | RF passes when requested; audio passes only after two lines have been held back |
| Capture.Handler.SyncEvent | misrc_tools/common/frame_parser.c:547-592 | lost and acquired reset the filter; lost and duplicate stop the frame |
| Capture.Reserve | misrc_tools/misrc_capture/misrc_capture.c:763-796 | all probes before the last one were refused and each is one wait; the reservation is granted exactly if the probe after them, one of eight, succeeds |
| Capture.Context.Store | misrc_tools/misrc_capture/misrc_capture.c:756-807 | the reserved bytes are the whole stream of the frame, and they reach the ring exactly if the ring accepts the commit; every refused probe is counted as a wait, a failed RF reservation as a dropped frame, a failed audio reservation as dropped audio, and a refused commit not at all |
| Capture.Context.OnFrame | misrc_tools/misrc_capture/misrc_capture.c:726-807 | one callback changes parser, filter and both rings exactly as the one-frame capture step |
| Capture.RfInWholeFrames | misrc_tools/misrc_capture/misrc_capture.c:763-805 | over any run the RF ring receives whole frames in order, whichever reservations and commits fail; that a frame's bytes are its whole stream is the work of OnFrame, CopyPayloads and ValidCounts |
| Capture.AudioInWholeFrames | misrc_tools/common/frame_parser.c:616-639 | over any run the audio ring receives only whole frames, after each loss or acquisition of synchronisation from the frame after the one with the second audio line on, and the filter's stage counts the lines since |
| Permute.Exchange | misrc_tools/getopt/getopt.c:302-380 | the block-swap loop terminates and is the rotation of the two segments, touching nothing else |
| Permute.BottomShort | misrc_tools/getopt/getopt.c:340-356 | swapping a short bottom block with the far end of the top leaves a smaller exchange with the same result |
| Permute.TopShort | misrc_tools/getopt/getopt.c:357-373 | swapping a short top block with the near end of the bottom leaves a smaller exchange with the same result |
| Getopt.Scanner.Next | misrc_tools/getopt/getopt.c:547-604 | each call keeps options in front of operands in original order, makes progress, and at -1 the permutation is complete |
| Getopt.Scanner.ScanAll | misrc_tools/getopt/getopt.c:547-605 | when the scan is over argv holds the options with their arguments and the terminator in order, then from optind on the operands in order, after one call for each option character |
| Getopt.PartitionIsStable | misrc_tools/getopt/getopt.c:466-469 | options and operands merge back to the original list, so the permutation is stable and loses nothing |
| GetoptRoles.PartitionExact | misrc_tools/getopt/getopt.c:547-604 | the two parts are the elements by role, in order: an argument exactly behind an option other than "--" that takes one, otherwise an operand behind "--", otherwise an option exactly if it is a dash and more; and the number of calls is that of the option characters |
| GetoptRoles.RolesAreUnique | misrc_tools/getopt/getopt.c:547-604 | the roles are determined by the elements |
| CpuList.ScanListExact | misrc_tools/common/flac_writer.c:69-148 | the scanner finds a list exactly if the string spells it, and a string spells at most one |
| CpuListText.DecimalExact | misrc_tools/common/flac_writer.c:82-100 | a string of digits has the value n exactly if it is the decimal spelling of n behind any number of zeros |
| CpuListText.PlainRangeAccepted | misrc_tools/common/flac_writer.c:69-165 | a range spelled in decimal is accepted exactly if it is the right way round, among the configured CPUs, below 1024 and within the allowed set |
| CpuListText.CharactersExact | misrc_tools/common/flac_writer.c:70-73 | white space and digits as characters |
| CpuList.ReadItem | misrc_tools/common/flac_writer.c:70-127 | one item is accepted exactly if it is a number or range, the right way round and in bounds |
| CpuList.ParseAffinityCpuList | misrc_tools/common/flac_writer.c:47-170 | accepts exactly the comma-separated numbers and ranges with optional white space that are in bounds and allowed, and returns exactly the union of the ranges |

## Left out

- RingTheorems.RunIsFifo: assumes that each head load of a write request is a safe one, which the code does not ensure; RingSchedules.FullHeadLoadCorrupts shows what happens otherwise.
- RingEverySchedule.NoLostWakeup: is about blocks of at least one byte, as the callers write them; a full ring whose tail has reached the end of the second mapping refuses even an empty block.
- RingWriter.RbWriterRun: the other side is a finite list of moments, after which the exit condition holds; the size of a read is positive; a sink that writes short is not modelled.
- BufferManager.Buffer.ReadBegin: with a negative timeout enough data has to arrive at some time, since otherwise the source does not return.
- BufferManager.Buffer.WriteBegin: counters are unbounded, and what the peer does during a wait is a list of amounts; torn loads are in the ring machine, not here, so the only commit refused here is one that does not fit.
- Collection.Session.Start: null arguments are not modelled, and an acknowledged collection request is taken to have been obeyed.
- Capture.Context.OnFrame: the capture flags are constant, the exit flag is not set, and whether a commit is accepted is an input (when it is sure to be is RingGrants.FinishExact).
- Getopt.Scanner.Next: what an option element means is two functions of its text; long-option matching, the -W convention, other orderings and error messages are not modelled.
- CpuList.ParseAffinityCpuList: error messages are not modelled.
- Ring reset while in use, creation and unmapping of the mappings, and weak memory effects: the atomics are sequentially consistent.
- Sample extraction in extract.c: some two dozen straight loops that apply one bit-field formula to every word.
- Telemetry parsing, device classification, rate planning, buffer budgets, file output, threads and the GUI.
