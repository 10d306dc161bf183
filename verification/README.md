# Split link: verified models

The firmware joins keyboard halves, a central and a USB relay dongle over a lossy radio and a UART.
Its promises are about whole runs: packets are lost or late, ACK payload writes are refused, a USB
endpoint is busy, an interrupt lands in the middle of another thread's work. These Dafny modules model
the state machines that keep those promises and prove the promises over every run.

Most components come in the same three parts. A pure definition says what one step does to the state.
A class with the firmware's own fields and loops does the same thing, and its postconditions tie it to
that definition. Lemmas about the definition state what the component is for. Steps of threads and
interrupts are atomic steps of a transition system. Whatever the outside world decides (a write taken
or refused, a payload lost or repeated, a silence, how many bytes a UART takes) is an argument of the
step and may be anything.

| modules | what they model |
|---|---|
| `Cobs`, `Segments`, `WireFrame`, `FrameStream`, `WireLink`, `WirePriority` | COBS in place, the resynchronising parser, three priority rings on one UART, the theorem across all of them, and which ring goes first |
| `RelayReports`, `RelayCentral`, `RelayRuns`, `RelayButtons`, `RelayCounts`, `RelayRefresh`, `RelayControls`, `RelayStaged`, `RelayPipe` | the central's reply scheduler and HID relay: queue, control and idle latches, stamped pointer totals; `RelayPipe` holds the classes |
| `RelayBytes`, `RelayDongle`, `RelayHost`, `RelayChain` | the dongle: splitting payloads, totals back to deltas, refusals; what the host was told; and motion and states from end to end |
| `MotionTotal`, `MotionTable`, `MotionEvents`, `KeyReconcile`, `Bitmap`, `InputKeys`, `Layout`, `Keepalive` | lost-event reconcile: motion totals, key positions, held input keys, and the keepalive that carries them |
| `HopPolicy`, `HopCentral`, `HopLadder`, `HopWalk`, `HopPeripheral`, `HopRendezvous` | channel hopping: masks with anchors and a floor, the retest ladder, the walk of a silent central, the sweep, and both ends together |
| `SpscLatch`, `AckFifo` | the lock-free latest-value latch; occupancy of the shared ACK payload FIFO |
| `Common` | bytes, optional values, repetition, laws of sequences and sets |

Run `dafny verify dfyconfig.toml` to verify everything.

## Where the code does less than its documents say

- ARCHITECTURE.md:40 says the floor of active channels is kept at boot. The code applies the stored mask
  without looking at the floor and only holds the survey to it. `HopCentral.BootInv` states when the
  floor holds after boot: exactly when the stored mask, with the anchors, meets it.
  `HopCentral.StoredMaskBelowFloor` boots below it.
- A masked channel does not always return within its retest threshold. With a mask threshold of zero, a
  channel due for retest can be masked again in the same tick. `HopCentral.ReturnsIff` has the exact
  condition on the configuration: a positive threshold, or nothing but anchors in the pool, or a floor of
  the whole pool. In every other configuration `HopCentral.BootedOutForever` boots into a state with a
  channel that stays masked for as long as windows are quiet.
- ARCHITECTURE.md:261-264 says a ring is picked only at a frame boundary, the event ring first. The code
  picks one for each chunk, and a chunk of up to 64 bytes may end one frame of its ring and begin the next.
  `WirePriority.PriorityIff` says when a frame overtakes a waiting one of a ring before its own: exactly when
  a chunk runs on past the end of a half-sent frame. `WirePriority.EventStarves` keeps an event waiting
  behind any number of later input frames.
- src/hop_central.c:375 says a silent central walks once around the pool. A pool's worth of hops visits every
  active channel exactly when the eight-bit epoch does not wrap on the way, or wraps with the first hop, or
  the pool size divides 256 (`HopWalk.WalkIff`).
- The latch's claim counter is 32 bits wide. `SpscLatch.SafeIff` says when that matters: runs that wrap it
  are safe exactly for slot counts that divide 2^32, shorter runs for every slot count. The firmware uses
  2 slots, and 2 divides it.
- `esb_link_stage_reply` puts the report first and counts it afterwards. A snapshot goes out behind a
  newer report exactly when the number of reports still to be counted has changed since its latch
  (`RelayCounts.BehindNewerIff`), as when two polls fall between a put and its count
  (`RelayRefresh.TwoPollsUndo`). One poll between each put and its count does no harm
  (`RelayRefresh.OnePollSuffices`).
- Button states can reach the host that no report ever carries: a poll writes a pending change and the
  change is then replaced before its sync (`RelayButtons.TwoChangesLeak`), or the report of a change meets
  a full queue and a later poll writes the held buttons all the same (`RelayButtons.DroppedReportLeaks`).
  `RelayButtons.NeverOvertakenIff` has the exact condition.

## Model

| member | source | states |
|---|---|---|
| `Cobs.EncodedNonZero` | src/cobs.c:10-36 | an encoding holds no zero before its final delimiter |
| `Cobs.EncodedFits` | src/cobs.h:10 | every encoding fits the header's bound |
| `Cobs.CloseFull` | src/cobs.c:23-31 | a run of 254 non-zero bytes is a block of its own with code 255, and the encoding goes on behind it, an empty rest included |
| `Cobs.RoundTrip` | src/cobs.c:38-58 | decoding undoes encoding for every input, runs of exactly 254 non-zero bytes included |
| `Cobs.EncodeInto` | src/cobs.c:10-36 | the index-driven encoder writes exactly the encoding, refuses exactly the too small buffer and then touches nothing |
| `Cobs.DecodeOne` | src/cobs.c:42-53 | one block is refused exactly when its code is zero or runs past the end; otherwise its bytes are appended and nothing unread is written |
| `Cobs.MoveDown` | src/cobs.c:47-49 | moving data down over read bytes loses none of it, though the ranges overlap |
| `Cobs.DecodeInPlace` | src/cobs.c:38-58 | decoding over its own input gives what the pure decoder gives, and fails exactly when that fails |
| `Segments.DeliverSegment` | src/wire_frame.c:36-59 | the meaning of a stream: each zero closes one segment, which is handed up on its own |
| `Segments.DeliverAppend` | src/wire_frame.c:36-59 | cutting a stream into chunks changes neither the deliveries nor the open tail |
| `WireFrame.DeliverFrame` | src/wire_frame.c:61-75 | an encoded frame is one segment and delivers its payload |
| `WireFrame.DeliveredIff` | src/wire_frame.c:15-59 | over every stream a payload is delivered exactly when some closed segment of it decodes to that payload followed by its own CRC; damage delivers nothing |
| `WireFrame.Resynchronises` | src/wire_frame.c:36-59 | after any bytes ending on a delimiter every following frame is delivered, in order |
| `WireFrame.EncodeFrame` | src/wire_frame.c:61-75 | refuses exactly the oversized payload and the too small buffer; otherwise writes the frame |
| `WireFrame.Parser.IngestByte` | src/wire_frame.c:40-57 | one byte on the accumulator extends the deliveries by what that byte closes, oversized segments discarded |
| `WireFrame.Parser.Ingest` | src/wire_frame.c:36-59 | for every chunk the deliveries are those of splitting at zeros, dropping the oversized, decoding, checking the CRC |
| `WireFrame.Parser.IngestChunks` | src/wire_link.c:63-72 | any chunking delivers what the joined stream delivers |
| `WireFrame.Parser.DeliverSegmentBytes` | src/wire_frame.c:15-34 | a closed segment delivers exactly its checked payload |
| `FrameStream.SplitPrefix` | src/wire_link.c:100-108 | a prefix of a stream of frames is whole frames and one zero-free part of the next |
| `WireLink.Link.TrackFrame` | src/wire_link.c:100-108 | the half-sent ring is the one whose last sent byte is not a delimiter |
| `WireLink.Link.Offer` | src/wire_link.c:131-146 | one partial fill takes a prefix of the picked ring and leaves the rest |
| `WireLink.Link.TxInterrupt` | src/wire_link.c:110-148 | the interrupt loop, for every sequence of partial fills |
| `WireLink.Link.Enqueue` | src/wire_link.c:169-184 | a frame enters its ring whole or not at all, with the exact refusals |
| `WireLink.RunExplained` | src/wire_link.c:84-146 | over every run the wire is whole frames and a half-sent one, and each ring holds exactly what it still owes; a half-sent frame's ring is not empty |
| `WireLink.EndToEnd` | src/wire_link.c:84-184 | what the parser delivers is exactly the fully sent frames, unspliced; each ring's are in enqueue order with none skipped; the link never stalls inside a frame; once the interrupt went quiet everything accepted was delivered |
| `WireLink.Receive` | src/wire_link.c:52-82 | the same through any chunking at the receiver |
| `WirePriority.RoundFrom` | src/wire_link.c:87-146 | each chunk leaves the front of one ring, that of the half-sent frame, or between frames the first ring with anything in it |
| `WirePriority.PriorityIff` | src/wire_link.c:87-146 | over every run the wire is such chunks; and no frame starts on it while a ring before its own holds something, exactly when no chunk runs on past the end of a half-sent frame while one does |
| `WirePriority.EventStarves` | src/wire_link.c:131-146 | runs, of any length, in which an event waits while later input frames go out |
| `WirePriority.Drains` | src/wire_link.c:131-146 | from every reachable state, an interrupt whose UART takes all it is offered puts every accepted frame on the wire and turns itself off |
| `WirePriority.RoomFor` | src/wire_link.c:175-181 | an empty ring takes any payload that is not oversize, the event and input rings a second one |
| `WirePriority.RingsBounded` | src/wire_link.c:26-28 | no ring ever holds more than its one or two largest frames |
| `RelayRuns.ExactlyOnceInOrder` | src/esb_link_central.c:142-158 | over every run the queue-derived reports written are a prefix of the staged sequence (mouse reports up to their stamped totals), and the queue is exactly the rest |
| `RelayRuns.QueueMoves` | src/esb_link_central.c:244-288 | a poll removes from the queue exactly the reports of the payload that was taken |
| `RelayCounts.RefusedLeavesNoTrace` | src/esb_link_central.c:270-316 | a refused write leaves no trace: within one turn of the counter every run writes what it would have written without the refused poll, and ends with the same queue, controls and pointer, at most a stale snapshot gone |
| `RelayRuns.QueueNotStarved` | src/esb_link_central.c:214-288 | a non-empty queue always gives up a report, and the payload fits 48 bytes |
| `RelayRuns.CountIsMost` | src/esb_link_central.c:244-268 | a relay payload takes as many whole reports as fit, ten bytes kept free exactly while motion is pending; another pipe's takes one command |
| `RelayRuns.TotalsNotStarved` | src/esb_link_central.c:214-316 | mouse reports carry the current totals, and while totals have moved every payload has one |
| `RelayRuns.AlwaysFit` | src/esb_hid_relay_pointer.c:38-41 | with the build-asserted sizes every reachable state holds only whole HID reports |
| `RelayRuns.NeverStarved` | src/esb_link_central.c:214-316 | so no poll of any run starves the queue or the totals |
| `RelayButtons.NeverOvertakenIff` | src/esb_hid_relay_pointer.c:154-216 | at every moment of a run the distinct button states written are a prefix of the distinct states staged or pending, exactly when no step of it drops or replaces a pending change already written, or writes held buttons that are neither pending nor last staged |
| `RelayButtons.NeverOvertaken` | src/esb_hid_relay_pointer.c:105-111 | each change synced on its own and its report accepted is enough for that |
| `RelayButtons.DrainedIsCurrent` | src/esb_hid_relay_pointer.c:174-216 | once the queue has drained nothing is missing, and the last state written is the one held |
| `RelayButtons.TwoChangesLeak` | src/esb_hid_relay_pointer.c:130-136 | a run with two changes before a sync, and a poll between them, that breaks the order |
| `RelayButtons.DroppedReportLeaks` | src/esb_hid_relay_pointer.c:105-111 | a run with the change synced on its own, into a full queue, that breaks it too: the poll that drains the queue writes a state no report carries |
| `RelayRuns.ShowsHeldIff` | src/esb_hid_relay_pointer.c:174-190 | which polls write the held buttons into a drained queue, as a condition on the state before the poll |
| `RelayButtons.StepIff` | src/esb_hid_relay_pointer.c:174-216 | what every step keeps: written states are level with those that left the queue, or one pending change ahead; and exactly which steps write out of order |
| `RelayCounts.FreshIff` | src/esb_link_central.c:290-297 | a snapshot passes for fresh exactly when the count since its latch is a whole number of counter turns |
| `RelayCounts.FreshUnchangedIff` | src/esb_link_central.c:290-297 | a fresh snapshot, within one turn, is of everything staged exactly when as many reports await their count as when it was latched |
| `RelayCounts.BehindNewerIff` | src/esb_link_central.c:290-316 | with nothing queued, a fresh snapshot would go out behind a report staged after it exactly when not |
| `RelayRefresh.NeverUndone` | src/esb_link_central.c:142-175 | while each poll that writes a snapshot finds the counts as they were at its latch, the keyboard and consumer states written never go back to an older one |
| `RelayRefresh.OnePollSuffices` | src/esb_link_central.c:153-157 | they do when at most one poll falls between each put and its count, however the stagings overlap |
| `RelayRefresh.TwoPollsUndo` | src/esb_link_central.c:153-156 | a run with two polls between put and count that writes an older state after a newer |
| `RelayControls.PollControls` | src/esb_link_central.c:195-212 | an accepted poll writes the first control latched and frees that one alone, touching nothing else; with none latched it writes none |
| `RelayControls.ControlsOnce` | src/esb_link_central.c:123-140 | over every run each control message written was latched, none is written twice, newer ones of a kind follow older ones, and a latch holds just the newest of its kind until that is written |
| `RelayControls.PollsDrain` | src/esb_link_central.c:318-334 | from every reachable state, one accepted poll a latched control, one a queued report and one more leave everything staged written, in order and once, and nothing to write: no control, no snapshot, no motion, no refresh |
| `RelayControls.CommandPoll` | src/esb_link_central.c:244-288 | a pipe that is not a relay latches no snapshot and sends its first command as it is, alone |
| `RelayStaged.EveryChangeWritten` | src/esb_hid_relay_central.c:98-109 | while the queue has room, the keyboard and consumer reports written from it are, once drained, exactly the states ZMK went through: a tap's press and release both |
| `RelayStaged.ButtonsStaged` | src/esb_hid_relay_pointer.c:86-136 | the button states staged are those held at the syncs that follow a change and find room |
| `RelayStaged.RefreshKept` | src/esb_hid_relay_pointer.c:174-217 | a pointer refresh stays due until a pointer report has been written, over every run |
| `RelayStaged.KeepaliveReply` | src/esb_hid_relay_central.c:69-95 | right after the keepalive, with nothing else to write, the reply is ZMK's two reports and the pointer's held buttons and current totals |
| `RelayCounts.CounterIs` | src/esb_link_central.c:153-157 | the staged counter is the number of accepted and counted reports, mod 2^32 |
| `RelayPipe.Sums.AddMotion` | src/esb_hid_relay_pointer.c:54-72 | one axis total moves, wrapping at 32 bits; other codes do nothing |
| `RelayPipe.Sums.AddButton` | src/esb_hid_relay_pointer.c:74-103 | a button counts as changed exactly when its bit flips; a code without a bit changes nothing |
| `RelayPipe.ButtonCodes` | src/esb_hid_relay_pointer.c:74-84 | touch has the first bit, each button code its own, and no other code has one |
| `RelayChain.PendingIff` | src/esb_hid_relay_pointer.c:192-196 | motion is pending exactly while some axis moved, mod 2^16, from what the last pointer report in the ACK FIFO carries |
| `RelayChain.WrittenIsLast` | src/esb_hid_relay_pointer.c:212-217 | the last written body is that of the last pointer report the FIFO took, over every run |
| `RelayPipe.Sums.Stamp` | src/esb_hid_relay_pointer.c:198-210 | a queued mouse report takes the current totals and keeps its buttons |
| `RelayPipe.Sums.Take` | src/esb_hid_relay_pointer.c:174-190 | a pointer report when there is room and news, with the written buttons while changes are queued |
| `RelayPipe.Sums.Sent` | src/esb_hid_relay_pointer.c:212-217 | the body written becomes the last written, and the refresh is done |
| `RelayPipe.Pipe.KeycodeChanged` | src/esb_hid_relay_central.c:98-109 | the put and the count as two steps of the run; a full queue drops the report |
| `RelayPipe.Pipe.SyncEvent` | src/esb_hid_relay_pointer.c:105-136 | one button report per sync with a change |
| `RelayPipe.Pipe.KeepaliveFire` | src/esb_hid_relay_central.c:69-95 | latch and refresh, as steps of the run; a pipe that is not a relay latches nothing |
| `RelayPipe.Pipe.LatchControl` | src/esb_link_central.c:123-140 | a control kind out of range changes nothing |
| `RelayPipe.Pipe.WritePendingControl` | src/esb_link_central.c:195-212 | the first latched control, released only if taken |
| `RelayPipe.Pipe.PackQueuedReplies` | src/esb_link_central.c:244-268 | the packing loop takes as many whole reports as fit, and finds the pointer report that will commit |
| `RelayPipe.Pipe.WriteQueuedReplies` | src/esb_link_central.c:270-288 | the new state and the payload are those of the poll, taken or refused |
| `RelayPipe.Pipe.FreshIdleReply` | src/esb_link_central.c:290-297 | drops a stale snapshot, keeps a fresh one |
| `RelayPipe.Pipe.WriteIdleReply` | src/esb_link_central.c:299-316 | the idle half of the poll |
| `RelayPipe.Pipe.Answer` | src/esb_link_central.c:322-333 | what one pipe writes and becomes is the poll of the run theorems: control, else queue, else snapshot |
| `RelayPipe.RxDone` | src/esb_link_central.c:318-334 | the loop over pipes: each that was acknowledged takes exactly one poll, every other keeps its state and writes nothing |
| `RelayBytes.ReportRoundTrip` | src/esb_hid_relay_pointer.h:16-19 | a report's bytes have its length and read back as the report, sixteen-bit totals included |
| `RelayBytes.MouseLayout` | src/esb_hid_relay_pointer.h:16-19 | a pointer report is its id, its buttons, then four totals with the low byte first |
| `RelayBytes.SplitSerialized` | src/esb_hid_relay_peripheral.c:155-179 | the dongle splits a payload into exactly the reports packed |
| `RelayBytes.SplitStops` | src/esb_hid_relay_peripheral.c:155-179 | from the first byte that is no report's id, or whose report is cut short, nothing more is delivered, and what came before it is |
| `RelayDongle.RefusedLeavesNoTrace` | src/esb_hid_relay_peripheral.c:85-104 | whatever follows a refused pointer report, the sink takes what it would have taken had the report never arrived |
| `RelayDongle.HostMotion` | src/esb_hid_relay_peripheral.c:56-104 | the motion the sink took since the last silence is the last committed total less the first, across 16-bit wrap, for any losses, repeats and refusals |
| `RelayDongle.HostMotionOnlyIfClose` | src/esb_motion_total.h:24-33 | and only then: motion right at every moment, silences or not, means no committed gap passed the cap |
| `RelayDongle.TurnConserves` | src/esb_motion_total.h:50-60 | a 16-bit total re-adopts the true baseline and gives the true gap within the cap |
| `RelayDongle.Receiver.TotalsToDeltas` | src/esb_hid_relay_peripheral.c:56-73 | the axis loop on a working copy of the tracks |
| `RelayDongle.Receiver.ForgetAfterSilence` | src/esb_hid_relay_peripheral.c:75-83 | a silence drops every baseline and nothing else |
| `RelayDongle.Receiver.DeliverPointer` | src/esb_hid_relay_peripheral.c:85-104 | a refusal leaves tracks and buttons, an acceptance or a report without news commits |
| `RelayDongle.Receiver.DeliverReport` | src/esb_hid_relay_peripheral.c:143-153 | a changed report is delivered once, and again while it is refused |
| `RelayDongle.Receiver.DeliverPayload` | src/esb_hid_relay_peripheral.c:155-179 | the offset loop delivers every whole report up to the first unknown or cut short, each in turn |
| `RelayHost.HostInStep` | src/esb_hid_relay_peripheral.c:85-153 | over every run the buttons, keyboard and consumer state the host was last told are those the dongle keeps |
| `RelayHost.HostNews` | src/esb_hid_relay_peripheral.c:85-153 | nothing is told twice, and a pointer report is marked for coalescing exactly when it tells the buttons last told |
| `RelayHost.TakenIsTold` | src/esb_hid_relay_peripheral.c:85-153 | once a report arrives and the sink has room, the host shows it, whatever was lost before; a refused state leaves everything as it was |
| `RelayChain.SumsAre` | src/esb_hid_relay_pointer.c:54-72 | the running sums are the true motion mod 2^32 |
| `RelayChain.WrittenPayloads` | src/esb_link_central.c:244-316 | every payload written is whole HID reports within 48 bytes whose mouse reports carry the true totals of their moment |
| `RelayChain.RelayConservation` | src/esb_hid_relay_peripheral.c:56-104 | end to end: for any refused writes, losses, repeats, silences and busy sinks, the deltas the host took sum to the true motion between first and last committed total |
| `RelayChain.CaughtUp` | src/esb_link_central.c:214-219 | one reply that gets through makes up for everything lost or refused before it, when totals have moved or a refresh is due |
| `RelayChain.StatesCaughtUp` | src/esb_hid_relay_peripheral.c:143-153 | the same of the states: once a reply with the idle snapshot gets through, the host was last told the keyboard and consumer states of the central's latch, and the buttons held if a pointer report was due, whatever was lost before |
| `MotionTotal.ShortPathAgrees` | src/esb_motion_total.h:50-60 | the 16-bit path agrees with the 32-bit one exactly when the gap fits 16 bits |
| `MotionTotal.Conservation` | src/esb_motion_total.h:20-60 | forwarded motion is the true motion between first and last total taken, for any losses and heals, across 32-bit wrap |
| `MotionTotal.ConservesOnlyIfClose` | src/esb_motion_total.h:24-33 | conserving at every moment requires every gap within the cap |
| `MotionTotal.UplinkConservation` | src/esb_peripheral.c:95-109 | the same from the peripheral's raw deltas to the central's forwarded ones |
| `MotionTable.AxesSeparate` | src/central_input.c:112-135 | an axis's track depends on that axis's samples alone |
| `MotionTable.ResetsRestart` | src/central_input.c:100-110 | a staleness reset is a fresh start of the track table and nothing more |
| `MotionTable.TrackedAxisConserves` | src/central_input.c:137-151 | uplink conservation on a tracked axis since the last reset, among any traffic on others |
| `MotionTable.SlotsAccumulate` | src/esb_peripheral.c:79-109 | a slot holds all the motion of its axis; an axis without one had none or found the table full |
| `MotionTable.SentAreSamples` | src/esb_peripheral.c:95-126 | the totals sent live and listed in keepalives are the samples the conservation law is about |
| `MotionTable.SlotsToTable` | src/esb_peripheral.c:79-126 | from the peripheral's slots to the central's table, whatever is lost, late, healed or reset, the motion forwarded is the true motion between first and last total taken |
| `MotionEvents.SlotsToHost` | src/central_input.c:137-300 | the same for what the central sends on: live deltas and the heals of quiet keepalives sum to the true motion between first and last total taken |
| `MotionEvents.HealsRecover` | src/central_input.c:251-300 | the heals one keepalive sends for an axis sum to the change of its true total, under the cap |
| `MotionTable.MotionTracks.Reset` | src/central_input.c:107-109 | every track is dropped |
| `MotionTable.MotionTracks.Claim` | src/central_input.c:112-135 | an axis finds its track or claims a free one; refused exactly when the table is full |
| `MotionTable.MotionTracks.MotionTotalToDelta` | src/central_input.c:137-151 | the table moves by one track step |
| `MotionTable.MotionTracks.MotionHealAt` | src/central_input.c:251-267 | a listed total heals a tracked axis and no other |
| `MotionTable.MotionTracks.HealLostMotion` | src/central_input.c:278-300 | every listed axis is healed in order and exactly the last heal carries the sync flag |
| `MotionTable.MotionSlots.SlotFor` | src/esb_peripheral.c:79-93 | slots fill from the front and each axis keeps one |
| `MotionTable.MotionSlots.MotionToTotal` | src/esb_peripheral.c:95-109 | the event carries the new wrapped total; a full table leaves it a delta |
| `MotionTable.MotionSlots.Snapshot` | src/esb_peripheral.c:111-126 | the keepalive lists every claimed axis once with its total's low half |
| `Bitmap.Set` | src/hop_policy.c:147-160 | one channel of a mask is written and every other is kept |
| `Bitmap.GetIsShift` | src/hop_policy.c:147-160 | position p is bit p mod 8, lowest first, of byte p / 8 |
| `KeyReconcile.PositionSet` | src/esb_keepalive.c:177-197 | one position is written and every other is kept; a position past the bitmap changes nothing |
| `KeyReconcile.DiffNext` | src/esb_keepalive.c:212-223 | the first position at or after the start at which two bitmaps differ |
| `KeyReconcile.KeyTracker.ReplayDiff` | src/central.c:221-242 | the tracked bitmap becomes the target and one event goes out per difference |
| `KeyReconcile.KeyTracker.DeliverKey` | src/central.c:244-268 | forwards, drops an orphan release, or heals a lost release first |
| `KeyReconcile.KeyTracker.ReleaseStale` | src/central.c:270-275 | every held position is released |
| `KeyReconcile.StreamsAlternate` | src/central.c:221-275 | over every interleaving each position's forwarded events alternate from press, and the tracked bit is the last of them |
| `KeyReconcile.KeepaliveConverges` | src/central.c:383-392 | after a keepalive the central holds the snapshot, whatever was lost, with one event per differing position |
| `KeyReconcile.StaleReleases` | src/central.c:270-275 | over every run a staleness release leaves nothing held, with one release for each position that was |
| `KeyReconcile.UncoveredPasses` | src/central.c:248-251 | a position past the bitmap is passed through: just its live events are forwarded, and it is never held |
| `KeyReconcile.LiveSettles` | src/central.c:252-268 | a live event of a covered position brings the host to it, over every run; only the release of a position not held is dropped |
| `InputKeys.TrackedKeys.Track` | src/central_input.c:82-91 | adds to the set unless the table is full |
| `InputKeys.TrackedKeys.Untrack` | src/central_input.c:93-98 | removes from the set |
| `InputKeys.TrackedKeys.Reset` | src/central_input.c:100-110 | empties the set |
| `InputKeys.TrackedKeys.DeliverKey` | src/central_input.c:153-185 | a repeated press is dropped, all else is forwarded and tracked |
| `InputKeys.TrackedKeys.ReleaseUnheld` | src/central_input.c:221-231 | exactly one release for each tracked key not listed |
| `InputKeys.TrackedKeys.PressHeld` | src/central_input.c:233-249 | exactly one press for each listed key added, until the table is full |
| `InputKeys.TrackedKeys.Reconcile` | src/central_input.c:302-311 | set synchronisation: the tracked set becomes the listed one exactly when that fits the table |
| `InputKeys.UnpackOfPack` | src/peripheral_input.c:21-30 | packing a held entry loses nothing |
| `InputKeys.HeldTable.Add` | src/peripheral_input.c:32-45 | a held key is in the table once |
| `InputKeys.HeldTable.Remove` | src/peripheral_input.c:47-54 | a release leaves no copy |
| `InputKeys.HeldTable.HeldKeys` | src/peripheral_input.c:71-81 | lists every held key once |
| `InputKeys.Synchronise` | src/central_input.c:221-249 | one keepalive makes the central's set the peripheral's, whatever was lost |
| `Keepalive.ReadOfEncode` | src/esb_keepalive.c:54-81 | encode then read recovers every field, key and total |
| `Keepalive.EncodeOfRead` | src/esb_keepalive.c:83-99 | a packet that matches is the encoding of what it reads as |
| `Keepalive.Bijection` | src/esb_keepalive.c:54-99 | a packet encodes a snapshot exactly when it matches and reads as that snapshot |
| `Keepalive.HeadLayout` | src/esb_keepalive.c:67-74 | the fixed fields and the two counts, at their offsets |
| `Keepalive.HeldLayout` | src/esb_keepalive.c:32-40 | each held key at its offset: region, then code with the low byte first |
| `Keepalive.MotionLayout` | src/esb_keepalive.c:42-53 | each motion total at its offset: region, code, low half with the low byte first |
| `Keepalive.SensorLayout` | src/esb_keepalive.c:75-80 | each sensor total at its offset: eight bytes, low byte first |
| `Keepalive.HeldAccessorReads` | src/esb_keepalive.c:106-113 | the accessor stays inside a matching packet and reads the listed key |
| `Keepalive.MotionAccessorReads` | src/esb_keepalive.c:120-129 | the same for motion totals |
| `Keepalive.SensorAccessorReads` | src/esb_keepalive.c:143-148 | the same for sensor totals |
| `Keepalive.EncodeInto` | src/esb_keepalive.c:54-81 | the encoder loops write exactly the encoding, or refuse a small buffer |
| `SpscLatch.Latch.constructor` | src/spsc_latch.h:12-16 | nothing published, nothing claimed |
| `SpscLatch.Latch.Claim` | src/spsc_latch.c:10-15 | one claim step of the protocol, for the slot its claim number names |
| `SpscLatch.Latch.Publish` | src/spsc_latch.c:17-20 | one publish step of the protocol |
| `SpscLatch.Latch.Peek` | src/spsc_latch.c:22-25 | one peek step of the protocol; an earlier peek is given up |
| `SpscLatch.Latch.Release` | src/spsc_latch.c:27-30 | one release step, the slot read to the end or not: drops the published slot only if it is the one peeked |
| `SpscLatch.NeighboursDiffer` | src/spsc_latch.c:10-15 | consecutive claims never share a slot, exactly unless the slot count divides 2^32 - 1 |
| `SpscLatch.SeparateIff` | src/spsc_latch.c:10-20 | over every run of so many claims the slot being written is never the published one, exactly when the counter does not wrap in it or the slot count does not divide 2^32 - 1 |
| `SpscLatch.DistinctIff` | src/spsc_latch.c:10-15 | in a run of so many claims any k in a row use k slots exactly when the counter does not wrap in it or k divides 2^32 |
| `SpscLatch.LatchSafety` | src/spsc_latch.c:10-30 | for any slot count until the counter wraps, and past that for those dividing 2^32: over every byte-by-byte interleaving the slot written is not the published one, a consumer fewer than k claims behind reads what was published, and its release never drops a newer one |
| `SpscLatch.NewestSeen` | src/spsc_latch.c:17-25 | a reader that peeks after a publish starts on the value just published, whole in its slot |
| `SpscLatch.SafeIff` | src/spsc_latch.c:10-30 | every run of so many claims is safe exactly under that condition: past it some reader in time reads another value |
| `SpscLatch.OneClaimTooLate` | src/spsc_latch.c:10-15 | the bound on the consumer is tight: a run in which a reader one claim later reads the value that was written over its own |
| `AckFifo.Counters.ReplyAsked` | src/esb_stats.c:98-109 | an offered head leaves on the next packet asking for an ACK |
| `AckFifo.Counters.WriteReply` | src/esb_stats.c:90-96 | a write is counted if taken |
| `AckFifo.Counters.RxReceived` | src/esb_link.c:122-159 | a drained batch asks for every packet and then writes once at most for each pipe |
| `AckFifo.AsksAre` | src/esb_stats.c:98-109 | of a batch's packets on a pipe each takes the head offered before it, the first only if one was |
| `AckFifo.WritesAre` | src/esb_link_central.c:318-334 | each pipe that asked and has a reply ready gets one reply or a refusal, no other pipe anything, and none is refused with room for all |
| `AckFifo.RunBounded` | src/esb_stats.c:34-37 | with room for two replies a pipe, no pipe ever holds more than two and none is refused |
| `AckFifo.FifoBound` | src/esb_link_central.c:87-89 | the FIFO never refuses in any run exactly when it has room for two replies a pipe |
| `HopPolicy.ChannelIsActive` | src/hop_policy.c:283-294 | the derived channel is active whenever any is |
| `HopPolicy.ChannelIs` | src/hop_policy.c:283-294 | the channel of an epoch is the first active one counted up from the epoch mod the pool size, around the pool; that one itself if active, or if none is |
| `HopPolicy.EndsAgree` | src/hop_policy.c:283-294 | if each end's channel is active in the other's mask, both ends are on the same channel |
| `HopPolicy.ChannelForEpochMasked` | src/hop_policy.c:283-294 | the loop over a stored mask derives that channel |
| `HopPolicy.StepsAreFirst` | src/hop_policy.c:271-281 | the channel chosen is the first active one from the start |
| `HopPolicy.NextActiveIs` | src/hop_policy.c:271-281 | the next active channel is the first one behind the index, the index itself last of all |
| `HopPolicy.WorstIsWorst` | src/hop_policy.c:239-258 | the channel masked has the highest score of those that may be masked, lowest index first |
| `HopPolicy.WorstChannel` | src/hop_policy.c:239-258 | the loop over stored masks finds it |
| `HopPolicy.ScoreMoves` | src/hop_policy.c:230-237 | a quiet window takes the decay off, a bad one adds its penalty, within a byte |
| `HopPolicy.RetestDoubles` | src/hop_policy.c:260-269 | the wait doubles with each level up to the sixth and saturates at 16 bits |
| `HopPolicy.ActiveCount` | src/hop_policy.c:183-192 | the count of set bits is the size of the mask |
| `HopPolicy.SurveyVerdict` | src/hop_policy.c:330-358 | the survey keeps anchors and the floor, masks only loud channels, loudest first, and stops only at the floor or when none is left |
| `HopPolicy.SurveyMask` | src/hop_policy.c:330-358 | the loop over a stored mask computes that survey |
| `HopCentral.MaskInvariant` | src/hop_central.c:222-343 | over every run: anchors in both masks, index as derived from epoch and active mask and itself active, pending count at least the smaller of its old value and the floor |
| `HopCentral.BootInv` | src/hop_central.c:446-480 | boot establishes the invariant, and the floor exactly when the stored mask with the anchors meets it |
| `HopCentral.MaskedReturns` | src/hop_central.c:296-343 | a masked channel is back when its saturated retest threshold is reached and in no window before, for every configuration in which the ladder can work |
| `HopCentral.ReturnsIff` | src/hop_central.c:296-343 | every masked channel always returns just on time exactly when the mask threshold is positive, or the pool is all anchors, or the floor is the whole pool |
| `HopCentral.BootedOutForever` | src/hop_central.c:446-480 | otherwise some stored mask boots the engine without a channel that quiet windows never restore |
| `HopCentral.StoredMaskBelowFloor` | src/hop_central.c:446-480 | an empty stored mask boots below the floor when there are fewer anchors than the floor asks for |
| `HopCentral.Engine.constructor` | src/hop_central.c:222-234 | starts with the whole pool active |
| `HopCentral.Engine.BootMask` | src/hop_central.c:446-480 | stored mask, survey and first hop, as the definition says |
| `HopCentral.Engine.RecomputeMask` | src/hop_central.c:296-343 | one pass over the pool, then at most one channel masked |
| `HopCentral.Engine.HopToNextEpoch` | src/hop_central.c:237-251 | commits the pending mask before deriving the new channel |
| `HopCentral.Engine.DecisionTick` | src/hop_central.c:382-436 | the firmware's tick is the step of the invariant |
| `HopLadder.BenchIff` | src/hop_central.c:319-342 | above the floor, with a channel bad enough, the worst is masked and no other, the lowest index first; otherwise none |
| `HopLadder.DegradedIsMasked` | src/hop_central.c:285-343 | a live channel that stays bad is out of the mask within as many windows as the threshold and one a channel, unless it is an anchor or the floor is met |
| `HopLadder.TickScores` | src/hop_central.c:285-293 | only the live channel of a polled window pays or decays, and a channel back from its wait starts at nothing |
| `HopLadder.Escalates` | src/hop_central.c:300-334 | masking a channel costs it a level, up to six, unless it served the whole restore period live since the last time, which clears it |
| `HopLadder.BootSurveyed` | src/hop_central.c:446-480 | beyond the stored mask boot leaves out only loud channels, the loudest first, down to the floor or until none is left; a reduced mask starts at epoch 1 |
| `HopWalk.SilenceWatch.DecisionWindow` | src/hop_central.c:417-429 | the silence and escape counters move as one step of the definition |
| `HopWalk.EscapesIff` | src/hop_central.c:417-429 | a window escapes exactly when the silence has lasted a whole number of patiences, and at most as often as there are channels |
| `HopWalk.EpochCounts` | src/hop_central.c:244-251 | over every run the epoch counts the hops, one a vote and one an escape |
| `HopWalk.WalkIff` | src/hop_central.c:372-375 | a pool's worth of hops visits every active channel, whatever the mask, exactly when the epoch does not wrap on the way, or wraps with the first hop, or the pool size divides 256 |
| `HopWalk.AnchorsVisited` | src/hop_central.c:244-259 | and then, whatever else the windows bring, every anchor has been the live channel |
| `HopPeripheral.SweepBound` | src/hop_peripheral.c:207-219 | from every reachable state, while lost, every pool channel gets one unbroken dwell within pool size plus one dwells, the step back included |
| `HopPeripheral.SweepOfRun` | src/hop_peripheral.c:244-261 | the same for the keepalive's own runs: any windows with the old epoch and no ack, that many of them, hold an unbroken dwell on each pool channel |
| `HopPeripheral.Engine.constructor` | src/hop_internal.h:81-84 | starts on the whole pool, with the dwell the build derives from the keepalive period |
| `HopPeripheral.Engine.AdoptEpoch` | src/hop_peripheral.c:172-182 | a new epoch brings the staged mask and clears sweep, streak and step back |
| `HopPeripheral.Engine.ConnectedWindow` | src/hop_peripheral.c:184-205 | a bad streak leaves for the next active channel and remembers where from |
| `HopPeripheral.Engine.LostWindow` | src/hop_peripheral.c:207-219 | one step back if one is owed, else the dwell counts on |
| `HopPeripheral.Engine.KeepaliveTick` | src/hop_peripheral.c:244-271 | the firmware's window is the step the sweep bound is about |
| `HopRendezvous.AdoptMeets` | src/hop_peripheral.c:172-182 | a peripheral in any state that hears the central's epoch with its mask staged, or in use already, is on the central's channel at once |
| `HopRendezvous.AdoptAgrees` | src/hop_peripheral.c:172-182 | with another mask it still is, if each end's channel is active in the other's |
| `HopRendezvous.MaskWaits` | src/hop_peripheral.c:150-157 | a staged mask waits for its epoch: without one the mask never changes |
| `HopRendezvous.LeavesWhen` | src/hop_peripheral.c:184-205 | a run of bad windows leaves in the very window its streak reaches the threshold, for the next active channel, and remembers where from |
| `HopRendezvous.StepsBack` | src/hop_peripheral.c:184-219 | a loss in the next window steps back, a good window keeps the new channel |
| `HopRendezvous.DwellCovers` | src/hop_internal.h:82-84 | a dwell is the fewest windows that last an idle keepalive period, and two more |

## Left out

- The radio, UART and USB drivers, clock gating, settings storage, energy registers, logging and work queues: only their outcomes appear, as arguments of the steps.
- CRC-8: crc8_ccitt is not part of this model; it is an arbitrary function of the payload, so nothing is claimed about detecting errors.
- Real time: the quiet gate, the silence reset and the staleness timeout are inputs that may come at any moment.
- Masks in lockstep: beacon and mask update travel apart, so agreement of the two ends is proved for a mask staged in time (`HopRendezvous.AdoptMeets`), and otherwise under the condition of `EndsAgree`.
- src/esb_wire.c, src/esb_batch.c: the event layouts come from ZMK structs that are not part of this model; events are values.
- src/esb_sensor_sync.c: the motion argument once more, without the wrap.
- More than one relay pipe, and pausing and resuming the host: the last written body is one global, so the relay modules speak of one active relay pipe.
- RelayPipe.RxDone: each pipe has pointer sums of its own, where the firmware keeps one set that only relay pipes use. The queue, both latches and the payload are values of reports rather than byte buffers; `RelayBytes` proves that the bytes of a payload are those reports. The latches are the slots they publish; `SpscLatch` covers the protocol underneath.
- RelayRefresh.NeverUndone: asks of polls that write a snapshot that fewer than 2^32 reports were counted since its latch, since the counter wraps; a snapshot written late may still show the same keys, so the condition is exact for the order of reports (`BehindNewerIff`), not for their contents.
- RelayCounts.RefusedLeavesNoTrace: within one turn of the staged counter, past which a stale snapshot could pass for fresh.
- The size check and pipe check in `esb_link_stage_reply` and `esb_link_latch_idle_reply`: relay reports are within both.
- Empty payloads on the wire link: the parser delivers them and the link's subscribers ignore them.
- EWMA of link cost, attempts penalty, loss vote and beacon repeats: they only decide inputs of the hop engine's steps.
- Retained link state across sleep (src/hop_peripheral.c:118-148) and the mask store format (src/hop_policy.c:197-228): single-branch copies.
- Pools of a single channel: the hop engine's build requires two.
- Status API, HID indicator sync, config-mismatch flags, the sleep listener and the remaining counters: one branch each.
