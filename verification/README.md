# Pudica transport: a verified model

Pudica streams video frames over UDP. The sender cuts each frame into 1200-byte packets, adds one XOR parity packet
per group of up to four, paces them onto the wire with four probes, retransmits on timers, and turns the receiver's
ACKs into samples for a congestion controller. The receiver rebuilds frames from whatever arrives and plays them in
order, asking for a keyframe when it has lost the decoder's state. This project models those parts and proves what
they promise over every run, every interleaving and every arrival order.

`dafny verify dfyconfig.toml` checks everything.

## How it is laid out

| module | what it models |
|---|---|
| `Bytes`, `Protocol` | big-endian fields, packet arithmetic, headers and ACKs (`codes/protocol.h`) |
| `Reassembly` | chunks, XOR parity and `ReceivedFrame` (`codes/transport.h`) |
| `Packetizer` | the packets the sender builds and the pacer's loop over one frame (`codes/sender.cc`) |
| `Controller`, `ControllerRuns`, `ControllerTheorems`, `ControllerSteps`, `LossCeilings`, `Estimators`, `CaptureEpochs` | the controller (`codes/pudica_algo.cc`): its calls, its invariant, its promises, the size of its steps, its loss ceiling |
| `ControllerClass` | the controller's methods with their loops, against `Controller` |
| `SlidingMin` | the monotonic deques behind the minimum delay and RTT |
| `EventLog`, `Sift` | the event log and the repository's own log checker (`evaluations/sift.py`) |
| `Sender`, `SenderRuns` | the sender as a step system: every locked block of its threads is one atomic step |
| `SenderLog`, `SenderRetries`, `SenderWire`, `SenderWindows`, `SenderLosses`, `SenderEpochs` | what every run of the sender keeps: the log, the retransmission queue, the wire, the minima, the loss back-offs, the rate epochs |
| `SenderPacing`, `SenderTimers`, `SenderHistory`, `SenderMarks`, `SenderSamples`, `SenderRates`, `SenderBacklog`, `SenderOrder` | what every run of the sender does: frames go out whole, what is due goes out again, what the handled ACKs say is what is known and what the samples charge, the rates measured, the frames skipped, the order of frames |
| `SenderClass` | the sender's methods with their loops, against `Sender` |
| `Receiver`, `ReceiverPlayout`, `ReceiverAcks`, `ReceiverClock` | the receiver's main loop; what the decoder sees; ACKs and memory; the arrival clock and what its stepping back does |
| `ReceiverAnswers`, `ReceiverShow`, `ReceiverForgets` | which packet each ACK answers, and sessions; which frames the decoder is given; a run in which one is withheld |
| `ReceiverClass` | the receiver's loops, against `Receiver` |
| `EndToEnd`, `Delivery` | a sender run, a network that loses, repeats and reorders, and a receiver run; and back again |
| `Metrics` | `frame_wire_bytes`, `payload_equivalent`, `jain`, `smoothed` (`evaluations/metrics.py`) |
| `Reals` | arithmetic facts the above use |

Program text that updates state is a method here, proved equal to a function; the theorems are about the functions and
their runs. `ReceivedFrame` has the fields of the original. The controller, sender and receiver classes hold the fields
guarded by one lock as one record, which their methods update step by step: where a handler has no loop the method is
the function written as assignments, and what these classes prove is the loops.

A run of the sender is any sequence of `Sender.Step`s from the initial state, so every interleaving of capture, pacer,
retransmissions, listener and keyboard is one. A loop head that reads the `running` flag may read it before another
thread clears it: `Pace` carries what was read.

## Main results

- `SenderLog.FinishedRunIsAccepted`: wherever a run of the sender is stopped, the log it leaves is one on which
  `check` of `evaluations/sift.py` reports nothing; `Sift.CheckIsLegality` says which logs those are, in terms of their
  events alone.
- `EndToEnd.FramesArriveIntact`: for any run of the sender, any network and any run of the receiver, every frame
  decoded in the session is one the sender sent, byte for byte; `EndToEnd.FrameSurvives` says exactly which arrivals
  complete a frame.
- `Delivery.DeliveredFramesArrived`, `Delivery.AckedPacketsArrived`: the way back: a frame the sender takes for
  delivered, and each packet it takes for acknowledged, has reached the receiver itself or through parity.
  `ReceiverAnswers.EveryAckAnswers` and `EveryPacketIsAnswered` say which packet each ACK is for.
- `SenderPacing.FramesAreSentWhole`: the pacer leaves out no data packet, no parity packet and no probe of a frame;
  `SenderTimers.NothingOverdueIsLeft` and `RetryServesInOrder`: what is overdue is queued, and the queue is served.
- `SenderSamples.SamplesAreCharged`: in every run, the BUR of every CONTROL_SAMPLE is what the handled ACKs charge its
  frame: `SenderHistory.RecordsAreTrue` says what the sender knows of a frame in flight, from those ACKs alone.
- `ReceiverPlayout.DecoderIsSafe`: whatever arrives, the decoder sees only complete frames, within a session in strictly
  increasing order, and is always ready for the next one; `ReceiverShow.FramesAreShown` says exactly which complete
  frames it is given, and after what.
- `SenderOrder.DecodedIsEncoded`: through both runs and the network, frame i of the session is decoded, if it is, as the
  i-th frame that the encoder handed over.
- `LossCeilings.CeilingIffThreeLossy`: exactly when a sample opens an episode of the loss ceiling, and with which bounds;
  `ControllerTheorems.DrainIffThreeCongested` and `ControllerSteps.FallbackIffCongested` are the same for drains and
  fallbacks.
- `SenderEpochs.SamplesWaitForFeedback`: in every run of the sender, an uncongested sample outside a drain steps the rate
  exactly when its frame was encoded after the rate decision before it; `CaptureEpochs.StepsWaitForFeedback` is the same
  for capture and controller alone.
- `SenderRetries.RetransmissionsAreBounded`, `SenderWire.EveryDatagramAccepted`, `ReceiverAcks.EveryAckAccepted`,
  `SenderWindows.MinimaAreTrue`, `SenderRates.RunKeepsRate`, `SenderLosses.BackoffsAreSpaced`,
  `ControllerTheorems.EachFallbackLowersOneFrame`, `ControllerSteps.HistoryIsRecent`.

## Where the code does something one might not expect

The decoder is not always given a frame that follows the one it decoded last. When the position has jumped over an
older frame that is still waiting for packets, that frame is forgotten when it gets stale, and expiry then asks for a
keyframe although the decoder lacks nothing: the next frame is passed over. `ReceiverShow.FramesAreShown` gives the exact
condition, `ReceiverForgets.ForgottenFrameCostsAnother` a run with a clock that never steps back in which it happens.

A smoothed RTT of 0 means that there is none yet, so samples of 0 before the first other one do not count:
`SenderRates.RunFollowsRfc`.

Unsigned time differences wrap, so each of these holds with a condition:

- The listener reads its clock before it takes the lock, so `timers` can meet a frame that was started after that
  reading; its age is then enormous and a STEADY controller falls back although nothing is overdue.
  `SenderRuns.AgeFallbackExactly` gives the exact condition, `SenderRuns.FreshFrameFallsBack` runs that do it.
- A datagram's arrival time is the steady clock less the time it seems to have waited in the socket, so that it can be
  less than the time before (`ReceiverClock.ClockStepsBackLittle`: by less than a second, and only for a datagram). A
  frame first seen later than the current reading counts as timed out at once: `ReceiverPlayout.TimeoutsExactly` gives
  the exact condition, `ReceiverClock.SteppedBackIsDropped` runs in which any stray datagram makes the receiver give up
  such a frame.
- For the same reason an ACK can carry a completion time after its receive time, and the sender refuses it.
  `ReceiverAcks.AckIsAccepted` and `ReceiverAcks.EveryAckAccepted` give the exact condition,
  `ReceiverClock.SteppedBackIsRefused` runs in which it happens. They also show that an ACK for a probe with an attempt
  number would be refused; the receiver does not check for that, the sender never sends one.
- A keyframe request is then also due at once: `ReceiverAcks.KeyRequestExactly` gives the exact condition,
  `ReceiverClock.SteppedBackAsksAgain` runs with two requests less than 200 ms apart.

`retry_one` indexes a frame's packets without a range check; `SenderRetries.FrontInRange` shows that the queue only ever
names packets their frame has.

## Model

| member | source | states |
|---|---|---|
| Bytes.FromBigEndianOfBigEndian | codes/protocol.h:50-57 | `get` after `put` returns the value, truncated to the field's width |
| Bytes.DecodeOfEncodeFields | codes/protocol.h:58-76 | reading a record's fields from any bytes that start with its encoding gives them back |
| Bytes.EncodeOfDecodeFields | codes/protocol.h:58-76 | encoding what was read gives the bytes back |
| Bytes.Put | codes/protocol.h:50-52 | the appending loop writes the big-endian bytes |
| Bytes.Get | codes/protocol.h:53-57 | the shifting loop reads the big-endian value |
| Protocol.PacketCountExact | codes/protocol.h:41-42 | for every legal frame size the packets are the fewest that hold it, and no 32-bit sum overflows |
| Protocol.HeaderRoundTrip | codes/protocol.h:58-87 | a datagram with an encoded header decodes to that header exactly when `decode` accepts it, else to nothing |
| Protocol.HeaderCanonical | codes/protocol.h:72-87 | an accepted datagram starts with the encoding of what `decode` returns |
| Protocol.WireRoundTrip | codes/protocol.h:58-87 | header and payload arrive as sent, or the datagram is refused |
| Protocol.AckRoundTrip | codes/protocol.h:65-105 | an encoded ACK decodes to itself exactly when it meets the acceptance rules |
| Protocol.AckCanonical | codes/protocol.h:88-105 | an accepted ACK is the encoding of what `decode` returns |
| Protocol.PutHeader | codes/protocol.h:58-64 | the header encoder, field by field, computes the encoding that the round trips are about |
| Protocol.PutAck | codes/protocol.h:65-71 | so does the ACK encoder |
| Protocol.GetHeader | codes/protocol.h:72-87 | the header decoder, field by field, computes the decoding function |
| Protocol.GetAck | codes/protocol.h:88-105 | the ACK decoder, field by field, computes the decoding function |
| Reassembly.ParityRebuilds | codes/transport.h:72-75 | parity XOR all packets of the group but one is the missing packet |
| Reassembly.ReceiveAllInv | codes/transport.h:60-78 | after any arrivals in any order, a packet is held, with the sender's bytes, exactly when it arrived or its group's parity and all other members did; stored parity never has exactly one packet missing |
| Reassembly.OrderIrrelevant | codes/transport.h:60-78 | two arrival sequences with the same set of packets leave the same payloads and count |
| Reassembly.CompleteIffDeliverable | codes/transport.h:59-85 | the frame is complete exactly when every packet is deliverable, and then assembles to the sender's bytes |
| Reassembly.AssembleChunks | codes/transport.h:79-85 | trimming the padded chunks to the frame's size gives the frame back |
| Reassembly.ReceivedFrame.Add | codes/transport.h:60-63 | stores a packet once and says whether it was new |
| Reassembly.ReceivedFrame.Recover | codes/transport.h:64-78 | the in-place search and XOR loops rebuild what the function `Recovered` says, and drop the parity |
| Reassembly.ReceivedFrame.Assemble | codes/transport.h:79-85 | the appending loop gives the trimmed payloads; an incomplete frame is refused |
| Packetizer.DataPacketAccepted | codes/sender.cc:268-275 | every data packet and retransmission is accepted by `decode` |
| Packetizer.ParityPacketAccepted | codes/sender.cc:344-353 | so is every parity packet of a group with at least two members |
| Packetizer.ProbePacketAccepted | codes/sender.cc:361-372 | so is every probe |
| Packetizer.StreamInfoAccepted | codes/sender.cc:296-299 | so is every stream announcement, and the receiver reads back its width and height |
| Packetizer.GenuineAccepted | codes/protocol.h:72-87 | any packet of a frame parses to itself and names the session, id, size and time of that frame |
| Packetizer.PacketsNumbered | codes/sender.cc:333-369 | each packet carries its own number or group, attempt and send time, and the flags that tell data, parity and probes apart |
| Packetizer.LoopEmitsParityCount | codes/sender.cc:326-355 | for every packet count the loop sends exactly `parity_count` parity packets |
| Packetizer.PaceFrame | codes/sender.cc:325-372 | an uninterrupted pass of the loop with its running parity array sends the data, parity and probe packets of the frame in order, and their bytes add up to `frame_udp_bytes` |
| Estimators.CorrectedBurIsSum | codes/pudica_algo.cc:20-26 | the corrected BUR is the raw one plus the total probe delay in frame intervals |
| Estimators.PacingShape | codes/pudica_algo.cc:15-18 | pacing lies between GAMMA_P and 100 GAMMA_P, falls as the BUR grows, is GAMMA_P / BUR in between and GAMMA_P exactly from a BUR of 1 on |
| Estimators.SmoothedBurBetween | codes/pudica_algo.cc:30-56 | the smoothed BUR lies between the smallest and largest rectified BUR of the history |
| Estimators.SmoothedBurLinear | codes/pudica_algo.cc:30-56 | and scales linearly with the current rate |
| SenderRuns.ProbesRaiseBurLittle | codes/sender.cc:116-132 | the four clipped probe delays of a frame in flight raise its sample's BUR by less than 0.8 and never lower it |
| Estimators.NextBitrateShape | codes/pudica_algo.cc:58-81 | the next rate is in [B_MIN, B_MAX]; up to ALPHA the rate rises unless it is B_MAX already, between ALPHA and 1 it moves by at most 1 Mbps down or GAMMA_MD of itself up, above 1 it stays |
| ControllerSteps.IncreaseExactly | codes/pudica_algo.cc:62-67 | up to ALPHA the rate goes to (0.7 + 0.2775 / BUR) times itself, with a BUR of at least 0.01, or to B_MAX if that is less |
| ControllerSteps.AdditiveStepExactly | codes/pudica_algo.cc:68-79 | between ALPHA and 1 the rate goes up exactly if it is below half of B_MAX plus the boost, by a fortieth of the difference within the two limits, and further up the more frames since the last reset |
| ControllerSteps.WeightShape | codes/pudica_algo.cc:42-46 | a sample weighs in proportion to its place plus 20, twice as much at a BUR of 1 or more as at 0, five times as much at 40 Mbps or more as at 0, and linearly in between |
| ControllerSteps.HistoryIsRecent | codes/pudica_algo.cc:104-109 | in every run with rising sample times the history holds, with their BUR, rate and time, exactly those samples since it was last cleared that are at most 200 ms older than the last one; it is cleared by the end of a drain, a back-off and by hand |
| ControllerSteps.CountsSinceReset | codes/pudica_algo.cc:111-173 | the frame count behind the additive step starts anew above a smoothed BUR of 1 and in each five-second slot, counts uncongested samples outside a drain and is 0 after one |
| Estimators.CeilingShape | codes/pudica_algo.cc:287-294 | the cubic ceiling starts at min(B_safe, B_MAX), never falls, is at most B_agg until K and at least min(B_agg, B_MAX) after |
| Estimators.CeilingStep | codes/pudica_algo.cc:284-301 | one sample, in an episode or opening one (when it does is CeilingIffThreeLossy): the ceiling in force is the episode's cubic, does not fall within an episode, starts at min(B_safe, B_MAX), and is B_MAX outside one |
| Estimators.CeilingRun | codes/pudica_algo.cc:242-302 | in every run with rising sample times the ceiling in force is the cubic at the last sample's time |
| LossCeilings.CeilingIffThreeLossy | codes/pudica_algo.cc:242-302 | in every run a sample sets the loss ceiling exactly when it and the two accepted before it are lossy with consecutive ids, with no ceiling set and no back-off since the first of the three, the first had queued for less than an interval, and the three were acknowledged more slowly than the mean of their frame rates; B_safe and B_agg then come from those two rates; and the exact condition under which the episode ends |
| LossCeilings.RunKeepsLosses | codes/pudica_algo.cc:245-249 | in every run the samples kept for this are those of the longest run of lossy, consecutive samples that ends the history, up to three |
| ControllerRuns.ApplyKeepsInv | codes/pudica_algo.cc:83-327 | every public call keeps the invariant on rates, fallback, epochs and congestion counters |
| ControllerRuns.RunKeepsInv | codes/pudica_algo.cc:83-327 | so in every state of every run: while a fallback is pending the state is FALLBACK or CONGESTED_WAIT and the rate max((1-ZETA)*saved, B_MIN); the congestion counter is, outside a drain, the length of the run of congested samples with consecutive ids that ends the log (0 in STEADY, at most 1 in FALLBACK, at most 2 in CONGESTED_WAIT) |
| ControllerRuns.RunLengthIsLongest | codes/pudica_algo.cc:86-87 | the counted run of congested, consecutive samples is the longest one that ends the log |
| ControllerTheorems.RatesInRange | codes/pudica_algo.cc:83-319 | whatever the inputs, the bitrate, the ceiling, the final bitrate, a pending saved rate and the encoding bitrate lie in [B_MIN, B_MAX] |
| ControllerTheorems.DrainIffThreeCongested | codes/pudica_algo.cc:123-151 | a sample starts a drain exactly when the controller is not draining and the last three samples are consecutive and congested (never four), from the mean receive rate of those three |
| ControllerTheorems.DrainsNameTheirFrame | codes/pudica_algo.cc:147-150 | such a drain is logged under the sample's frame |
| ControllerTheorems.DrainEmptiesExcess | codes/pudica_algo.cc:136-144 | what a drain takes off the rate is what empties, in DRAIN_WIN, the bytes in flight beyond the receive rate times the base RTT |
| ControllerTheorems.DrainEndsUncongested | codes/pudica_algo.cc:154-167 | a drain ends exactly with the first sample without congestion, at that sample's receive rate within the bounds, with an empty history |
| ControllerTheorems.BackoffHalvesRate | codes/pudica_algo.cc:185-205 | a LOSS_BACKOFF comes only from a lost frame outside the gap; the rate is then half of what it was, or B_MIN, any fallback and the history are dropped and a drain starts |
| ControllerSteps.FallbackIffCongested | codes/pudica_algo.cc:123-132 | in every run a sample sets a fallback exactly when it is congested and the controller is STEADY, and the rate is then 85 % of what it was, or B_MIN |
| ControllerSteps.PendingIsTaken | codes/pudica_algo.cc:304-314 | the next encoded frame gets the lowered rate of a pending fallback, under the ceiling, and the saved rate is back; with none pending it gets the rate under the ceiling |
| ControllerTheorems.FallbackNeutral | codes/pudica_algo.cc:128-132 | starting a fallback, or taking it for an encoded frame, leaves the underlying rate alone; it starts only from STEADY with none pending |
| ControllerTheorems.FallbackEndsCleanly | codes/pudica_algo.cc:94-102 | an uncongested sample ends a fallback and steps from the underlying rate, not the lowered one |
| ControllerTheorems.EachFallbackLowersOneFrame | codes/pudica_algo.cc:222-238 | over any run the encoding bitrates below the underlying rate are no more than the fallbacks started |
| ControllerTheorems.PendingOnlyFromSet | codes/pudica_algo.cc:304-314 | a fallback is pending only after one was set and until it is consumed; only a pending one lowers an encoding bitrate |
| CaptureEpochs.StepsWaitForFeedback | codes/pudica_algo.cc:94-175 | in every run, an uncongested sample outside a drain sets the rate to what `next_bitrate` gives from the underlying rate, opening the next epoch, if its frame was encoded after the decision that opened the current one (and so after every frame that drove a step before), and to the underlying rate if it was encoded before |
| CaptureEpochs.RateStepsExactly | codes/pudica_algo.cc:154-175 | for any state the controller can be in, such a sample runs `next_bitrate` exactly when its epoch tag has reached adj_epoch |
| CaptureEpochs.NextKeepsEpochInv | codes/sender.cc:214-221 | capture and controller together keep adj_epoch equal to rate_epoch and every tag at most the current epoch |
| SenderEpochs.SamplesWaitForFeedback | codes/sender.cc:106-157 | the same rule for every uncongested sample outside a drain that resolve takes in any run of the sender, through queue, pacer and in-flight map: the sample is of the encoding the frame came from |
| SenderEpochs.StepEndsResolved | codes/sender.cc:106-161 | a listener step ends with the state after the last frame resolve settled |
| ControllerClass.SmoothedBur | codes/pudica_algo.cc:30-56 | the one-pass loop computes the weighted mean |
| ControllerClass.CorrectedBur | codes/pudica_algo.cc:20-26 | the accumulating loop computes the corrected BUR |
| ControllerClass.Controller.OnFrameAcked | codes/pudica_algo.cc:83-183 | the handler, stage by stage, reaches the state, output and log of the specification |
| ControllerClass.Controller.CheckShallowCongestion | codes/pudica_algo.cc:242-302 | so does the ceiling update, with its averaging loop: the state that CeilingIffThreeLossy is about |
| ControllerClass.Controller.OnFrameLoss | codes/pudica_algo.cc:185-205 | so does the loss back-off |
| ControllerClass.Controller.OnInflightAge | codes/pudica_algo.cc:222-238 | so does the age check |
| ControllerClass.Controller.TakeEncodingBitrate | codes/pudica_algo.cc:304-314 | so does handing out the encoding bitrate |
| SlidingMin.FrontIsWindowMin | codes/sender.cc:410-417 | for samples with non-decreasing times the front of the pruned deque is the minimum over the last 10 s |
| SlidingMin.Observe | codes/sender.cc:411-413 | the two pruning loops compute the specified deque |
| SenderWindows.MinimaAreTrue | codes/sender.cc:405-418 | in every run min_rtt and min_owd are the true minima over all samples of the last 10 s, and unset exactly when there are none |
| SenderWindows.RunKeepsRtt | codes/sender.cc:405-409 | in every run the smoothed RTT lies between the samples taken, its variation between 0 and the larger of their spread and half their maximum, and the retransmission timeout is at least 20 ms and the smoothed RTT |
| SenderRates.RunFollowsRfc | codes/sender.cc:405-409 | in every run SRTT and RTTVAR are those of section 2 of RFC 6298 over the samples from the first that is not 0, and the timeout is SRTT + 4 RTTVAR, at least 20 ms, 100 ms before the first sample |
| SenderRates.RunKeepsRate | codes/sender.cc:419-426 | in every run the receive rate is 8 times the bytes counted over the time between two readings of the receiver's counter: the last one, and one more than 200 ms before it (or the first ever) whose successor is at most 200 ms before it |
| SenderLosses.BackoffsAreSpaced | codes/pudica_algo.cc:185-189 | in every run without a forced loss, however many frames are lost at once, the controller backs off at most once a listener step, and not before both two frame intervals and the smoothed RTT have passed since the last back-off, unless the clock has stepped back |
| SenderLosses.LossOnce | codes/sender.cc:148-154 | a lost frame backs off only outside the gap, which is the smoothed RTT but at least two frame intervals |
| Sift.CheckLog | evaluations/sift.py:4-35 | the checker's loops compute the list of problems |
| Sift.CheckIsLegality | evaluations/sift.py:4-35 | the checker reports nothing exactly on the legal logs: each event in order, one outcome and one summary per sent frame, and before every drain the last three sampled frames up to it have congested samples in the log |
| SenderRuns.NextKeepsValid | codes/sender.cc:106-443 | every step keeps ids increasing, frame sizes legal, the pacer's place sound and the controller's invariant |
| SenderRuns.AgeFallbackExactly | codes/sender.cc:177-180 | the age check starts a fallback exactly in STEADY for a frame that is overdue or was started after the clock reading |
| SenderRuns.OldestIsFirst | codes/sender.cc:175-179 | the frame whose age is checked is the first in flight that is not delivered, if there is one |
| SenderRuns.FreshFrameFallsBack | codes/sender.cc:177-180 | for any two clock readings in the wrong order there is a run from the start in which the only frame is not overdue and the controller falls back |
| SenderRuns.ResolveExhausts | codes/sender.cc:106-157 | resolve takes exactly the settled frames at the front of the map and stops at the first that must wait |
| SenderLog.NextKeepsLogInv | codes/sender.cc:106-443 | every step keeps what the checker has seen in agreement with the frames in flight, the samples and the drains |
| SenderLog.StopIsAccepted | codes/sender.cc:500-510 | stopping in any such state leaves a log the checker accepts |
| SenderLog.FinishedRunIsAccepted | codes/sender.cc:480-510 | every finished run leaves a log with no problem, legal in the sense of CheckIsLegality; the samples behind a drain are those of three consecutive frames |
| SenderLog.AckedIsLegal | codes/sender.cc:115-147 | each controller sample has four probes, pacing at least 1, and a drain only when the last three samples are congested and consecutive |
| SenderRetries.QueueRetriesKeepsQueue | codes/sender.cc:162-174 | timers queues only packets that are not queued, and marks them |
| SenderRetries.RetryOneKeepsQueue | codes/sender.cc:256-281 | retry_one keeps the queue free of duplicates and its marks exact |
| SenderRetries.FrontInRange | codes/sender.cc:262-266 | a queued pair whose frame is in flight names one of its packets |
| SenderRetries.AcknowledgeKeepsFrame | codes/transport.h:30-44 | an ACK keeps marks and queue in step |
| SenderRetries.NextKeepsSends | codes/sender.cc:256-377 | every step keeps the count of a packet's transmissions equal to what its record says |
| SenderRetries.RetransmissionsAreBounded | codes/sender.cc:162-284 | in every run: no pair queued twice, unacknowledged packets marked exactly when queued, at most nine transmissions of a packet, numbered 0, 1, 2, ... |
| SenderTimers.NothingOverdueIsLeft | codes/sender.cc:162-174 | in every run, after every listener step, each packet in flight whose timer has run out, of an undelivered frame the pacer is through with, sent at most eight times, is in the queue and marked |
| SenderTimers.RetryServesInOrder | codes/sender.cc:256-284 | retry_one sends the first queued packet that is in flight and not acknowledged, under the next attempt number and with its time, logs it, and drops the entries up to it; if there is none the queue is empty after it and nothing is sent |
| SenderMarks.MarksAreTrue | codes/sender.cc:172 | in every run a frame in flight counts as lossy exactly if an ACK for a rebuilt packet of it was handled or one of its packets has been in the retransmission queue |
| SenderBacklog.SkipsExactly | codes/sender.cc:199-220 | a capture is skipped exactly if three frames are queued or the backlog takes more than two intervals at the bitrate, or at the receive rate when limiting; otherwise the frame gets the controller's encoding rate and epoch |
| SenderBacklog.QueuedWireIsTotal | codes/sender.cc:202-207 | the queued part of the backlog is the sum of `frame_wire_bytes` over the queue |
| SenderBacklog.LimitFollowsRetries | codes/sender.cc:158-170 | in every run RETRANS_LOSS is logged at most once and the rate is not limited before; then it is from four packets on that await the ACK of a retransmission, until fewer than two do and none is queued |
| SenderBacklog.PendingIsAwaiting | codes/sender.cc:95-100 | which is the number of packets not acknowledged that were retransmitted or are queued for it |
| SenderBacklog.UnackedBetween | codes/sender.cc:86-94 | the outstanding bytes of a frame are all of it before the first ACK and none after the last |
| SenderBacklog.AckTakesOff | codes/sender.cc:86-94 | and the ACK of a packet takes off what the packet carries |
| SenderBacklog.OutstandingAdds | codes/sender.cc:86-94 | and undelivered frames count in full, delivered ones not at all |
| SenderWire.NextKeepsGenuine | codes/sender.cc:256-377 | every step puts nothing but packets of sent frames on the wire, with the group's true parity (that none is left out is FramesAreSentWhole) |
| SenderWire.RunIsGenuine | codes/sender.cc:256-377 | in every run one frame stands behind each id and every datagram on the wire is a packet of the frame it names, or a stream announcement |
| SenderWire.EveryDatagramAccepted | codes/sender.cc:256-377 | every datagram ever sent passes the receiver's `decode` unchanged |
| SenderPacing.FramesAreSentWhole | codes/sender.cc:325-377 | in every run, for every frame in flight since whose start no loop head of the pacer read running as false: once the pacer is through with its packets, the wire holds every data packet as attempt 0 and the parity packet of every group of two or more; once it is through with its probes, all four; and then the frame is marked all_sent with a probes_sent_at |
| SenderPacing.NextKeepsPaced | codes/sender.cc:256-377 | every step keeps what is out of each frame in agreement with the place of the pacer |
| SenderPacing.PacerFinishes | codes/sender.cc:325-377 | in every run the pacer is through with a frame of n packets after at most 2n + 12 of its locked blocks and sends |
| SenderOrder.FramesAreSentInOrder | codes/sender.cc:232-320 | in every run frame i on the wire is the i-th one that the encoder handed over, with its bytes and keyframe mark, and the queue holds the rest in order |
| SenderOrder.DecodedIsEncoded | codes/sender.cc:232-236 | for any run of the sender, any run of the receiver and any network that invents nothing, so is frame i at the decoder |
| SenderHistory.RecordsAreTrue | codes/transport.h:30-46 | in every run, of a frame in flight: it is delivered exactly if an ACK that reported it complete was handled, as of the time in the first one; a packet is acknowledged exactly if an ACK named it or reported the frame complete; its first-try time is that of the first ACK for attempt 0; each probe's ACK is the first handled; bytes, times, epoch and probe gap are those of its start |
| SenderHistory.FirstIsFirst | codes/sender.cc:399-428 | an ACK of a kind that is first among those handled: some step handled it and none before handled one of the kind |
| SenderSamples.SamplesAreCharged | codes/sender.cc:115-147 | in every run each CONTROL_SAMPLE is of a frame some ACK reported complete; its BUR is max(0, deliveredAt - firstSent - minOwd) over the interval, plus, for each probe over the interval, the probe gap if no ACK for it was handled and else the least of its queueing delay, its time since delivery and the gap; its receive rate is the measured one times payload over UDP bytes |
| SenderSamples.EveryFrameIsSettled | codes/sender.cc:106-157 | in every run a frame that leaves the in-flight map in a listener step is sampled if an ACK reported it complete and a minimum delay is known, and logged as lost if none did |
| SenderSamples.FramesLeaveInOrder | codes/sender.cc:107-114 | in every run a listener step ends with exactly those frames gone, oldest first up to the first that is not, that are past the frame timeout, or delivered with all probes answered or the retransmission delay over since the last probe |
| SenderSamples.FirstTriesSpan | codes/sender.cc:141-146 | a sample's first and last ACK times are the least and greatest of its packets' first-try times, and its acknowledged bytes those of exactly these packets |
| SenderClass.Acknowledge | codes/transport.h:30-46 | the in-place update of packets, probes and flags computes the specified frame |
| SenderClass.MarkDue | codes/sender.cc:165-173 | the packet loop of timers marks and queues exactly the due packets |
| SenderClass.CountProbes | codes/transport.h:25-27 | the probe count |
| SenderClass.Sender.Outstanding | codes/sender.cc:86-94 | the nested loops count undelivered frames and their unacknowledged bytes |
| SenderClass.Sender.PendingRetries | codes/sender.cc:95-100 | the nested loops count packets awaiting a retransmission's ACK |
| SenderClass.Sender.MakeAck | codes/sender.cc:116-146 | the probe loop and the first-try loop compute the sample that SamplesAreCharged and FirstTriesSpan are about |
| SenderClass.Sender.Resolve | codes/sender.cc:106-161 | the loop settles frames in order up to the first that must wait, then updates the limit |
| SenderClass.Sender.Timers | codes/sender.cc:162-182 | marking, the age check and resolve, in order |
| SenderClass.Sender.OnAck | codes/sender.cc:400-437 | the listener's ACK branch with its sliding windows |
| SenderClass.Sender.RetryOne | codes/sender.cc:256-281 | the loop drops entries no longer wanted and retransmits the first that is |
| SenderClass.Sender.Backlogged | codes/sender.cc:201-213 | the test for skipping a capture |
| SenderClass.Sender.Stop | codes/sender.cc:500-510 | logs the outcome of every frame in flight and forgets everything |
| ReceiverPlayout.DecoderIsSafe | codes/receiver.cc:147-176 | in every state of every run, within a session decoded ids strictly increase; a frame reaches the decoder, if it does (FramesAreShown says when), only right after a reset, as a keyframe, or right after an error-free decode of the frame before it; and it was complete in the pass that decoded it, given with all its declared bytes |
| ReceiverPlayout.PositionOnlyAdvances | codes/receiver.cc:83-183 | between any two states of a run of one session `next` does not decrease (so it never wraps), and a session that ended never returns |
| ReceiverPlayout.DeliverExhausts | codes/receiver.cc:147-176 | when the delivery loop stops, the first frame at or after `next` has not timed out, and if it is `next` itself it is not complete |
| ReceiverShow.FramesAreShown | codes/receiver.cc:147-176 | in every run of a receiver with a picture, a complete frame that the delivery loop passes is decoded, all its bytes, exactly when it is a keyframe, or when the last thing done to the decoder was to decode the frame before it without an error and no unplayed frame was forgotten since; a keyframe without the latter is preceded by a reset; an incomplete one, and one after a gap, was waited for |
| ReceiverShow.KeyframesAreAskedFor | codes/receiver.cc:137-172 | in every run, whenever the loop passes a complete frame undecoded, or decodes it with an error, a keyframe has been asked for within the last 200 ms of the clock |
| ReceiverShow.DecoderHasSize | codes/receiver.cc:86-102 | in every run there is a decoder exactly if one was made in the session, and it has the size announced last |
| ReceiverShow.AnnouncedSizeIsTaken | codes/receiver.cc:91-102 | an even size from 2 to 8192 makes a new decoder exactly if it differs, and any other announcement changes nothing |
| ReceiverForgets.ForgottenFrameCostsAnother | codes/receiver.cc:177-183 | for any four one-packet frames of which the third is a keyframe and the fourth is not, there is a five-pass run with rising times in which frame 3 is decoded last, without an error, and frame 4, complete, is passed over |
| ReceiverPlayout.SweepKeeps | codes/receiver.cc:177-183 | expiry keeps exactly the frames that are not stale, in order |
| ReceiverPlayout.SweepMoves | codes/receiver.cc:177-183 | it moves `next` just past the last unplayed frame it forgets, never back, and needs a keyframe exactly if it forgot one or needed one before |
| ReceiverPlayout.TimeoutsExactly | codes/receiver.cc:151-178 | a frame is timed out after its timeout, or when the clock reads less than when it was first seen |
| ReceiverClock.ClockStepsBackLittle | codes/receiver.cc:25-35 | the times a run can read step back by less than a second, and never on a timeout |
| ReceiverClock.SteppedBackIsDropped | codes/receiver.cc:77-182 | for any packet that opens a frame of several packets, any stray datagram and any two readings in the wrong order, there is a two-pass run that gives the frame up; the receiver can read them if they are less than a second apart |
| ReceiverAcks.AckIsAccepted | codes/receiver.cc:123-132 | the ACK for an accepted packet decodes exactly when it answers no probe with an attempt number and the clock reads no less than when the frame completed |
| ReceiverAcks.RecoveredAckIsAccepted | codes/receiver.cc:123-131 | the ACK for a rebuilt packet decodes exactly when the clock reads no less than when the frame completed |
| ReceiverAcks.EveryAckAccepted | codes/receiver.cc:123-145 | in every run an ACK or keyframe request, whatever it answers (EveryAckAnswers), decodes to itself exactly under these two conditions; both always hold when the clock never steps back and probes are the sender's |
| ReceiverAnswers.EveryAckAnswers | codes/receiver.cc:123-132 | in every run every ACK that is no keyframe request answers a datagram that came in, with its frame, packet and attempt number, its send time echoed, its flags and the pass's time; or it is flagged RECOVERED, names another packet of that frame, echoes nothing, and the receiver holds that packet then |
| ReceiverAnswers.PacketIsAnswered | codes/receiver.cc:104-133 | a packet of the session is answered exactly if its frame is held, which it is afterwards exactly if it was, or the id is within 256 of the position and there is room; one ACK for each packet rebuilt (at most one) and then its own, none of its own for parity; they report the frame complete exactly if it is |
| ReceiverAnswers.EveryPacketIsAnswered | codes/receiver.cc:104-133 | in every run every packet the receiver takes, and whose frame it holds then, is answered in that pass, and so is each packet rebuilt from it |
| ReceiverAnswers.SessionsExactly | codes/receiver.cc:80-136 | exactly when a datagram begins a session, in which state it begins, when the receiver stops instead, when a datagram is taken in the open session, and that otherwise nothing happens |
| ReceiverAnswers.CounterIsTrue | codes/receiver.cc:86-90 | in every run the byte counter is the size of all datagrams taken in the session, modulo 2^64 |
| ReceiverClock.SteppedBackIsRefused | codes/receiver.cc:125-132 | for any such readings there is a two-pass run whose last ACK does not decode |
| ReceiverAcks.KeyRequestsAreSpaced | codes/receiver.cc:137-145 | in every run each keyframe request, over all sessions, is at least 200 ms after the one before, or the clock stepped back between the two |
| ReceiverAcks.KeyRequestExactly | codes/receiver.cc:137-145 | exactly when a request is made: in a session with a decoder, unless the last one is less than 200 ms old and not in the future |
| ReceiverClock.SteppedBackAsksAgain | codes/receiver.cc:137-145 | for any such readings there is a three-pass run with a keyframe request at each of them |
| ReceiverAcks.MemoryIsBounded | codes/receiver.cc:104-110 | at most 256 frames and 16 MiB of declared frame bytes are held |
| ReceiverClass.Sweep | codes/receiver.cc:177-183 | the erasing loop computes the specified sweep |
| ReceiverClass.StorePacket | codes/receiver.cc:111-121 | a packet put into a `ReceivedFrame` object with add and recover gives the specified frame and rebuilt packet |
| ReceiverClass.Receiver.TakePacket | codes/receiver.cc:104-133 | admission, with its summing loop, storing, recovery and the ACKs reach the state that PacketIsAnswered and StoreRebuilds are about |
| ReceiverClass.Receiver.TakeStreamInfo | codes/receiver.cc:91-103 | the picture size read with `get` makes a new decoder as specified |
| ReceiverClass.Receiver.Take | codes/receiver.cc:80-136 | the session switch and the peer test |
| ReceiverClass.Receiver.Deliver | codes/receiver.cc:147-176 | the ordered-delivery loop terminates and reaches the state that FramesAreShown and DeliverExhausts are about |
| ReceiverClass.Receiver.Pass | codes/receiver.cc:70-185 | one turn of the main loop |
| EndToEnd.StoreRebuilds | codes/receiver.cc:111-122 | a genuine packet moves the receiver's frame to what the larger set of arrivals determines |
| EndToEnd.FrameSurvives | codes/receiver.cc:111-122 | any sequence of a frame's packets completes it exactly when every data packet is deliverable, and then the receiver holds the sender's bytes and keyframe mark |
| EndToEnd.CompleteIsSent | codes/transport.h:59-85 | a frame being rebuilt is complete exactly when every packet is deliverable, and then its bytes and keyframe mark are the sender's |
| EndToEnd.RunIsSent | codes/receiver.cc:70-185 | in every run of the receiver whose session carries only that sender's packets, decoded frames are frames sent, and frames reported complete can be rebuilt from what came in |
| EndToEnd.FramesArriveIntact | codes/receiver.cc:161-165 | the same for any run of the sender, any run of the receiver and any network that invents nothing under the session |
| Delivery.NextDelivers | codes/sender.cc:427-436 | only an ACK that reports it complete makes a frame delivered |
| Delivery.DeliveredFramesArrived | codes/sender.cc:427-436 | in every state of any run of the sender, a frame taken for delivered on the receiver's ACKs can be rebuilt from what reached the receiver |
| Delivery.PacketReportsAreTrue | codes/receiver.cc:123-132 | in every run of the receiver every ACK for a packet is for one that came in or can be rebuilt from what did |
| Delivery.AckedPacketsArrived | codes/transport.h:34-44 | for the same runs and network, in every state, every packet of a frame in flight that the sender takes for acknowledged came in itself, or its group's parity and other packets did |
| Metrics.WireBytesMatchProtocol | evaluations/metrics.py:14-17 | for every legal frame the per-group sum equals `frame_udp_bytes` plus 28 bytes per datagram |
| Metrics.WireBytesMonotone | evaluations/metrics.py:14-17 | more payload never takes fewer wire bytes |
| Metrics.WireBytesExceedPayload | evaluations/metrics.py:14-17 | and the wire bytes exceed the payload |
| Metrics.PayloadEquivalent | evaluations/metrics.py:19-26 | the bisection's result fits or is 0, and nothing fits at capacity/2^60 above it |
| Metrics.JainBounds | evaluations/metrics.py:92-94 | Jain's index lies between 1/n and 1, and is 1 exactly when all rates are equal |
| Metrics.Smoothed | evaluations/metrics.py:123-131 | fails exactly for lists of different length or a window that is not positive (if there is a value); otherwise each point gets the mean of a window that ends at it and starts within reach, everything before having fallen out; with times in order that is the trailing window |

## Left out

- Sockets, kernel time stamps, thread scheduling and sleeping: times are inputs and locked blocks are atomic steps. The
  pacer's deadlines and the rate `pace_wire` sleeps for are not modelled, nor are send errors.
- Capture, encoding, decoding and rendering: an encoded frame is any byte string, the decoder an outcome per frame;
  closing the renderer's window, which ends the receiver, is not a step.
- Floating point: doubles are reals; `log` and `cbrt` are functions the configuration supplies.
- Estimators.CeilingShape: assumes that the supplied cube root is exact at its argument, as a correctly rounded one is only nearly.
- Estimators.CeilingStep: the same, for the parts that compare ceilings; that the ceiling is the cubic's value needs no assumption.
- SenderLog.FinishedRunIsAccepted: is about event values; the log's six-decimal text could show a BUR just above 1 as 1.000000, which the checker would read as not congested.
- SenderWindows.MinimaAreTrue: assumes that the listener's clock does not go back, as a steady clock does not.
- SenderPacing.FramesAreSentWhole: says nothing of frames that leave the in-flight map while the pacer is in them, and of frames in which a loop head read that the sender was stopped.
- LossCeilings.CeilingIffThreeLossy: takes the samples' lossy marks as given; `SenderMarks.MarksAreTrue` says which frames in flight have them.
- ControllerSteps.HistoryIsRecent: assumes sample times that do not go back, as the listener's clock does not.
- ReceiverAcks.EveryAckAccepted: assumes clock readings that are positive and fit int64_t.
- Packetizer.PaceFrame: has no retransmissions in between and no early exit; `Sender.PacerStep` and the run theorems have both.
- Metrics.Smoothed: the timestamp-presence check is not modelled.
- The in-flight and frame maps are sequences in id order, and `SentFrame` and `Entry` are values in them: a handler takes
  an entry out, changes it and puts it back; aliasing between map entries is not modelled. The fields guarded by one
  mutex are one record.
- Epoch and frame counters of the controller are unbounded; their 32-bit wrap is not modelled.
- The forced-keyframe flag and its 200 ms limit on the sender's side, the `sampled` flag (a sampled frame leaves the
  map at once), `target_mbps` and `captured_at` in log fields, and state printing on the keyboard.
- The rest of `evaluations/`, `realnet/`, option parsing, the logger's text and result files.
