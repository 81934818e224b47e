# The mec-cast measurement spine, modelled and proved

mec-cast measures where latency goes between a sensor, a 5G link, an edge node
and a receiver. This project models the code those measurements pass through,
and the bookkeeping around it, and proves what the code is for. `dafny verify
dfyconfig.toml` checks everything.

| Files | Part of the system |
|---|---|
| `DelayStatistics`, `Recorder`, `Pipeline`, `RecorderThreads` | the recorder: producer, bounded ring, writer thread, delay statistics, snapshot channel, uploader, shutdown |
| `Envelope` | the 64-byte timing envelope on the wire |
| `Calendar`, `Timestamp` | the gNB's date-times (RFC 3339, section 5.6, the zone optional) and Hinnant's closed form for the calendar |
| `FrameRecorder` | the relay's frames, put together from interleaved RTP packets (RFC 3550, section 5.1) |
| `RunStates`, `Orchestrator`, `OrchestratorRules`, `OrchestratorProcess`, `RunJournal` | the admin service's run state machine, one atomic step per stretch of code between two awaits, over restarts and torn writes; its run store |
| `RanNormalise`, `RanMeaning`, `RanAgreement`, `RanDifference`, `RanLoops` | the Rust and Python normalisers of RAN reports: what each row says, and exactly when the two agree |
| `Voxels` | the edge node's voxels under the point-cloud codec's quantisation |
| `Dataset` | lidar sweeps converted to a dataset and replayed |
| `MediaJoin` | a media run's frames joined across sites and with WebRTC's state |
| `Base`, `Sorting`, `Text` | shared types, the library sort, string order and decimals |

Code that updates an object in place is a class whose methods do the same, each
tied to a specification on values; the main theorems are lemmas about those
specifications: an invariant over every interleaving of threads or tasks, a
fast form equal to a plain one, or a round trip.

## What the proofs turned up

Each of these is a fact about the code as it stands, with a lemma saying
exactly when it happens.

- `written + dropped == produced` fails after `shutdown` exactly when a sample
  was accepted after the writer's last look at the ring
  (`Pipeline.ShutdownAccountsForSamples`), which does happen
  (`Pipeline.LateSampleIsLost`); a producer that stops first, as the comment on
  `shutdown` asks, rules it out.
- A start refused for disk space is not recoverable as the comment at
  `services/admin/src/mec_cast_admin/orchestrator.py:245-251` says: the state
  has moved to `starting` and no start clock runs. As long as the process lives,
  the run holds its zone exactly until somebody stops it, or a supervise pass
  finds a quorum on it or every node gone from it
  (`Orchestrator.RefusalLeavesNothing`, `Orchestrator.RefusedStartStrands`).
- Replaying the journal is meant to apply transitions the manifest missed
  (`services/admin/src/mec_cast_admin/store.py:290-295`). No step journals a
  transition its manifest lacks (`RunJournal.ReplayOnlyTakesBack`), so a replay
  can only make a restart forget what the manifest says. It does so exactly when
  an event parted the two files and none has brought them together since
  (`RunJournal.RestartForgetsExactly`). Two kinds of event part them: a death
  between the two writes of a transition that changes what a restart makes of
  the run (`RunJournal.TornWriteForgetsExactly`, `RunJournal.TornRemovalForgotten`),
  and, with no death at all, a report or another save of the manifest alone
  while memory is ahead of the journal by such a transition: a start or a second
  stop still being sent, or a start refused for disk space
  (`RunJournal.StepAgreesExactly`, `RunJournal.ReportDuringStartForgotten`).
- The comment at `services/admin/src/mec_cast_admin/orchestrator.py:779-783`
  expects runs found in `stopping` at startup; `start` has failed them all by
  then (`Orchestrator.RestartKeeps`), and the clock that the pass would seed for
  a stopping run is there already in every reachable state
  (`Orchestrator.StoppingIsBounded`).
- Given the same typed reports, the two normalisers return different rows exactly
  when the last report has a cell with rows and a timestamp of 0 under a report
  time that is not 0, or an RLC message with an index and a latency sum over a
  negative count, or an RLC message with rows about a UE that the old layout
  last named without `pci` under a cell that has one
  (`RanDifference.NormalisersAgreeExactly`).
- The date-time parser takes days past the end of a month and second 60, and
  counts them on into the next month or minute (`Calendar.DaysFromCivilCounts`,
  `Timestamp.PrintedReadsBack`).
- A conversion all of whose sweeps are empty passes the size check and still
  cannot be replayed, because an empty file cannot be mapped
  (`Dataset.ConversionOpens`).
- The edge node's check for a precision that does not divide the voxel size never
  warns for nothing, and stays silent when the voxels differ exactly if the
  steps miss a whole number by no more than its tolerance
  (`Voxels.WarningMeans`, `Voxels.ToleranceHides`).
- `join_frames` ends with an error as soon as one frame both sites saw misses
  one of six stamps (`MediaJoin.JoinFrames`, `MediaJoin.BlankLegs`).

## Model

| member | source | states |
|---|---|---|
| Envelope.RoundTrip | telemetry/src/envelope.rs:101-141 | Decoding an encoded envelope returns it, for every envelope, signed 64-bit stamps included. |
| Envelope.WireLayout | telemetry/src/envelope.rs:101-114 | The 64 bytes one by one: version 1, modality code, six zeros, four stamps in two's complement and the sequence number with the lowest byte first, the trace id. |
| Envelope.DecodeVerdict | telemetry/src/envelope.rs:116-141 | Decoding accepts exactly the 64-byte, version-1 buffers with modality 0 to 3, and names the first thing wrong with any other. |
| Envelope.ReEncode | telemetry/src/envelope.rs:102-141 | Re-encoding a decoded buffer gives it back with only the six reserved bytes zeroed. |
| DelayStatistics.WelfordStep | telemetry/src/stats.rs:95-99 | One update carries exact mean and two-pass sum of squared deviations from a history to the history with the new value. |
| DelayStatistics.DeviationShift | telemetry/src/stats.rs:95-99 | How the sum of squared deviations changes when its reference point moves: the identity behind Welford's recurrence. |
| DelayStatistics.RingStep | telemetry/src/stats.rs:101-103 | Overwriting the oldest slot keeps the ring, read oldest first, the last values recorded. |
| DelayStatistics.RingContents | telemetry/src/stats.rs:101-116 | The filled prefix is, as a multiset, exactly the last min(count, window) values. |
| DelayStatistics.PercentileIsNearestRank | telemetry/src/stats.rs:142-149 | Sorting any arrangement of the window and picking by rank gives an element with at least ceil(pn) values not above it and n - ceil(pn) + 1 not below it. |
| DelayStatistics.RankIsPercentile | telemetry/src/stats.rs:142-149 | For 50, 90 and 99 per cent the rank is the share rounded up, so the pick is the least element that at least that share of the window does not exceed. |
| DelayStatistics.NearestRankMonotone | telemetry/src/stats.rs:142-149 | A higher rank never gives a smaller value, and a rank has one value only. |
| DelayStatistics.SnapshotOrdered | telemetry/src/stats.rs:112-134 | min <= p50 <= p90 <= p99 <= max and the variance is not negative, whatever the history and window. |
| DelayStatistics.SnapshotUnique | telemetry/src/stats.rs:112-134 | A history and a window determine the snapshot. |
| DelayStatistics.DescriptionOrdered | telemetry/src/stats.rs:112-134 | Whatever a snapshot call returns for a history is in that order. |
| DelayStatistics.DescriptionUnique | telemetry/src/stats.rs:112-134 | Two calls for one history return the same, absence included. |
| DelayStatistics.DelayStats.WithWindow | telemetry/src/stats.rs:73-86 | A new object has seen nothing and has a window of at least one. |
| DelayStatistics.DelayStats.Record | telemetry/src/stats.rs:89-104 | Recording appends one value to the history that count, last, extremes, moments and ring all describe. |
| DelayStatistics.DelayStats.Snapshot | telemetry/src/stats.rs:112-134 | Absent exactly when nothing was recorded; otherwise mean, two-pass variance and extremes of the whole history, and the 50, 90 and 99 per cent points of its last window by counting, in their order. |
| DelayStatistics.DelayStats.Reset | telemetry/src/stats.rs:136-139 | A reset forgets the whole history and keeps the window. |
| Recorder.KeptStep | telemetry/src/recorder.rs:358-399 | A written sample adds to a metric's kept values exactly its delay, if both stamps are set and it is not negative, and to the left-out count otherwise if defined. |
| Recorder.KeptMeans | telemetry/src/recorder.rs:373-399 | Over all samples: one value kept for each delay that is not negative, zero included, and one left out for each that is. |
| Recorder.DelaysMean | telemetry/src/recorder.rs:360-371 | Each delay by the two stamps it lies between: defined exactly when both were taken, and their true difference whenever it fits 64 bits. |
| Recorder.DelaysAddUp | telemetry/src/recorder.rs:368-371 | For a fully stamped frame end to end is the sender's delay plus the network's plus the processing. |
| Recorder.WriterState.WriteSample | telemetry/src/recorder.rs:358-423 | After any samples the four statistics have seen, in order, exactly the defined non-negative delays; the negative counter is the number of defined delays left out; one CSV row was appended. |
| Recorder.WriterState.TakeReport | telemetry/src/recorder.rs:426-431 | A snapshot reports every row written and the drops since the last one. |
| Recorder.WriterState.TakeMetrics | telemetry/src/recorder.rs:456-492 | Each metric of a snapshot is the one summary of what that metric kept of the samples written, its fields in their order. |
| Pipeline.StepKeeps | telemetry/src/recorder.rs:120-128 | Every step of any thread keeps: accepted is written then ring, in order; accepted plus dropped is attempts; report deltas never negative and summing to the drops seen; every body built is dropped, queued or taken. |
| Pipeline.EveryInterleaving | telemetry/src/recorder.rs:253-284 | That invariant holds after every interleaving of pushes, stop, writer and uploader steps. |
| Pipeline.EveryCount | telemetry/src/recorder.rs:120-128 | After every interleaving each counter is the number of times what it counts happened: pushes that found the ring full, pops, snapshots that fell due, sends that found 64 bodies waiting, posts that succeeded and that failed. |
| Pipeline.ShutdownAccountsForSamples | telemetry/src/recorder.rs:180-204 | Written plus dropped equals produced exactly when nothing was accepted after the writer ended; always when the producer was quiet before the stop. |
| Pipeline.LateSampleIsLost | telemetry/src/recorder.rs:261-270 | A reachable shutdown in which one sample pushed is neither written nor dropped. |
| Pipeline.ShutdownAccountsForSnapshots | telemetry/src/recorder.rs:426-438 | Built equals dropped plus posted plus failed; the uploader took the bodies sent, in order; with a quiet producer the last snapshot reports every row and every drop. |
| Pipeline.ShutdownReports | telemetry/src/recorder.rs:196-203 | The six numbers a shutdown returns are those happenings. |
| Pipeline.WriterTerminates | telemetry/src/recorder.rs:255-276 | Once stop is set and pushes end, the writer ends within a bounded number of its own steps, whatever the others do, with an empty ring. |
| Pipeline.UploaderTerminates | telemetry/src/recorder.rs:514-533 | Once the writer is gone, the uploader ends after the bodies left in the channel. |
| RecorderThreads.RecorderCore.TryRecord | telemetry/src/recorder.rs:116-128 | True exactly when the ring had room; then the sample was accepted, else one drop was counted. |
| RecorderThreads.RecorderCore.PopOne | telemetry/src/recorder.rs:257-260 | The pop writes the row of the oldest sample in the ring, and moves the step system. |
| RecorderThreads.RecorderCore.ReadStopAndDecide | telemetry/src/recorder.rs:261-267 | The stop flag is read once a round and decides the final snapshot with the clock. |
| RecorderThreads.RecorderCore.SendSnapshot | telemetry/src/recorder.rs:432-437 | A full channel of 64 drops the body and counts it. |
| RecorderThreads.RecorderCore.UploadOne | telemetry/src/recorder.rs:519-532 | A body that was there is counted as posted exactly when the post succeeded, else as failed; without one neither changes. |
| RecorderThreads.RecorderCore.Accounts | telemetry/src/recorder.rs:196-203 | The final report is the step system's own account of a reachable, joined state. |
| Calendar.DaysFromCivilCounts | ran/collector/src/lib.rs:198-205 | The closed form equals adding up whole years and months from 1970-01-01, for every year, month and day number. |
| Calendar.NextDayIsOneMore | ran/collector/src/lib.rs:198-205 | The successor date is always one day more, leap rules included. |
| Calendar.DayNumberOrders | ran/collector/src/lib.rs:198-205 | Calendar order is the order of day numbers, so valid dates never share one. |
| Calendar.DayNumberOfDate | ran/collector/src/lib.rs:198-205 | Every day number is the number of exactly one valid date. |
| Timestamp.PrintedReadsBack | ran/collector/src/lib.rs:160-208 | For all fields that fit the layout, every fraction and every zone: the parser accepts exactly the ranges it checks, and returns the calendar's instant shifted by the offset. |
| Timestamp.PrintLayout | ran/sim/gnb_sim.py:84-87 | The printed layout, place by place: four digits of year, two each of month, day, hour, minute and second between their separators, then the fraction and the zone. |
| Timestamp.ZoneMoves | ran/collector/src/lib.rs:169-181 | A zone's six characters, and that it moves the instant by its hours and minutes, east earlier. |
| Timestamp.HoursAlone | ran/collector/src/lib.rs:172-178 | A zone may be given in hours alone. |
| Timestamp.IntegerReads | ran/collector/src/lib.rs:164-168 | A decimal, plus sign or not, is read as its number exactly when that fits 64 bits. |
| Timestamp.OnlyIntegersRead | ran/collector/src/lib.rs:164-168 | A field with anything but digits after its sign is no number. |
| Timestamp.NeedsSeparator | ran/collector/src/lib.rs:162 | A text without a `T` or a space inside is no date-time. |
| Timestamp.SpaceForT | ran/collector/src/lib.rs:162 | A space does for the `T`. |
| Timestamp.SpaceAround | ran/collector/src/lib.rs:161 | Whitespace around the text changes nothing. |
| Timestamp.FractionExact | ran/collector/src/lib.rs:186-194 | A fraction of up to nine digits is read exactly. |
| Timestamp.ZoneReadBack | ran/collector/src/lib.rs:169-181 | A zone of `Z`, `+HH:MM`, `-HH:MM` or none is split off the clock and read as its offset. |
| Timestamp.SimulatorRoundTrip | ran/sim/gnb_sim.py:84-87 | What the simulator prints for an instant, the collector reads as that instant cut to the millisecond. |
| FrameRecorder.RealtimeKeepsDifferences | edge/media-relay/src/record.rs:84-90 | The monotonic-to-realtime mapping keeps every time difference on both sides of its epoch. |
| FrameRecorder.SegmentIsSegmentation | edge/media-relay/src/record.rs:94-132 | Frames plus the pending one tile an SSRC's packets in order, with one timestamp each, a marker at most on the last packet, and an end only at a marker or a timestamp change. |
| FrameRecorder.SegmentationIsUnique | edge/media-relay/src/record.rs:94-132 | There is no other way to cut the packets that obeys those rules. |
| FrameRecorder.SummaryMeasures | edge/media-relay/src/record.rs:112-126 | A frame's figures are its packets' first and last arrival, latest forwarding, byte sum and last send times. |
| FrameRecorder.SampleConserves | edge/media-relay/src/record.rs:134-153 | The sample says of its packets: all bytes (to 32 bits), latest arrival, latest forwarding, span of arrivals, capture and send times of the last packet that carries any or zeros, RTP timestamp, video, site 3, trace id; forwarding does not end before arrival if the last packet to arrive was forwarded after it. |
| FrameRecorder.SamplesMeasure | edge/media-relay/src/record.rs:134-153 | With a sender there is one such sample for each finished frame, in order. |
| FrameRecorder.PacketRefines | edge/media-relay/src/record.rs:94-132 | For any interleaving, recorded and pending frames of each SSRC are the segmentation of its own packets; other SSRCs never affect it. |
| FrameRecorder.FrameRecorder.Packet | edge/media-relay/src/record.rs:94-132 | The in-place method keeps that refinement for the history with the new packet, and hands on, in order, exactly the frames this packet cuts off or marks. |
| FrameRecorder.FrameRecorder.Record | edge/media-relay/src/record.rs:134-154 | Finished frames are counted and, with a sender, become samples in order. |
| RunStates.TableShape | services/admin/src/mec_cast_admin/state.py:65-138 | A row offers exactly the actions the table accepts; a run never goes back; only starting a draft enters the slot; whatever holds a slot can be stopped. |
| OrchestratorRules.TableMeans | services/admin/src/mec_cast_admin/state.py:65-147 | Event by event, from which states it is legal and where it leads; what holds a slot is exactly what can be stopped. |
| OrchestratorRules.ProgressMeans | services/admin/src/mec_cast_admin/state.py:49-96 | Which states lie past starting, at or past stopping, and past stopping. |
| Orchestrator.OneRunPerZone | services/admin/src/mec_cast_admin/orchestrator.py:263-316 | From any files on disk, over every interleaving of requests, stale supervise passes, saves, restarts and torn writes, no zone ever has two runs in its slot. |
| Orchestrator.StepKeeps | services/admin/src/mec_cast_admin/orchestrator.py:722-815 | Every step keeps one slot per zone, removed runs out of it, each clock with a run that was started or told to stop, and a stop clock with every stopping run. |
| Orchestrator.JudgeMoves | services/admin/src/mec_cast_admin/orchestrator.py:760-813 | A pass never moves a run back, into a slot, or out of a state that holds none. |
| Orchestrator.StartIsBounded | services/admin/src/mec_cast_admin/orchestrator.py:285-299 | A run whose start was accepted has left `starting` for good by the first pass later than the start timeout, whatever happens in between. |
| Orchestrator.StopIsBounded | services/admin/src/mec_cast_admin/orchestrator.py:778-813 | A run told to stop has freed its zone for good by the first pass later than the stop timeout; nothing resets its clock. |
| Orchestrator.StoppingIsBounded | services/admin/src/mec_cast_admin/orchestrator.py:778-813 | In every reachable state a stopping run has its stop clock, so a pass never seeds one, and the run has freed its zone for good by the first pass later than that clock plus the timeout. |
| Orchestrator.RefusalLeavesNothing | services/admin/src/mec_cast_admin/orchestrator.py:263-293 | A refused action changes nothing, except exactly a start refused for disk space: a draft, in a free zone, with too little room. |
| Orchestrator.StartingPass | services/admin/src/mec_cast_admin/orchestrator.py:747-807 | A pass leaves a starting run where it is exactly when its roles are not all there, somebody is online or nobody has joined, and its start clock has not run out. |
| Orchestrator.RefusedStartStrands | services/admin/src/mec_cast_admin/orchestrator.py:281-293 | After a start refused for disk space, over every run of events in which the process lives: the run is still starting if and only if nobody stopped it and no pass found a quorum or everybody gone; and while it is, every other start in its zone is refused. |
| Orchestrator.CreateAccepts | services/admin/src/mec_cast_admin/orchestrator.py:201-243 | A run is created exactly in a declared zone, for a known profile, with a policy whose UE is a client declared in that zone with a known identity. |
| OrchestratorRules.CreateMakes | services/admin/src/mec_cast_admin/orchestrator.py:223-231 | A created run is a draft in the zone asked for, the default one if none, for the profile asked for, on disk and in the journal; a refusal changes nothing. |
| OrchestratorRules.CreateRefuses | services/admin/src/mec_cast_admin/orchestrator.py:207-222 | Each refusal of a creation, with its exact cause, the first that applies. |
| OrchestratorRules.ActRefuses | services/admin/src/mec_cast_admin/orchestrator.py:195-293 | Each refusal of an action, with its exact cause in states, zones and free space. |
| OrchestratorRules.ActDoes | services/admin/src/mec_cast_admin/orchestrator.py:280-309 | What an accepted action leaves: the run in its next state, a start clock, a stop clock unless one runs, or a removal on disk and in the journal; nothing else. |
| OrchestratorRules.LowDiskDoes | services/admin/src/mec_cast_admin/orchestrator.py:280-293 | A start refused for disk space moves the state and nothing else. |
| OrchestratorRules.JudgedMeans | services/admin/src/mec_cast_admin/orchestrator.py:747-813 | Where the rules of a pass leave a run of any state, by who is online, which roles run, which clocks ran out and who reported. |
| OrchestratorRules.PassDoes | services/admin/src/mec_cast_admin/orchestrator.py:722-815 | A whole pass, watchdogs first: over a limit a running or degraded run stops; with nobody online it fails; else it runs or is degraded by its roles; no other run changes. |
| OrchestratorRules.PassKeepsBooks | services/admin/src/mec_cast_admin/orchestrator.py:760-824 | What a pass saves and does to the clocks. |
| OrchestratorRules.FileEventsDo | services/admin/src/mec_cast_admin/orchestrator.py:309-309 | What the end of an action, a report and a save write. |
| OrchestratorRules.RestartDoes | services/admin/src/mec_cast_admin/orchestrator.py:95-102 | What a restart makes of each stored run: the journal's state, else the manifest's, failed if it was under way, on disk too; no clocks. |
| Orchestrator.RestartKeeps | services/admin/src/mec_cast_admin/orchestrator.py:95-102 | A restart, whatever was on disk, leaves no run in a slot. |
| RunJournal.ReplayOnlyTakesBack | services/admin/src/mec_cast_admin/store.py:290-336 | In every run of events the journal's last state of a run is one its manifest and memory have reached or passed. |
| RunJournal.RestartByManifest | services/admin/src/mec_cast_admin/store.py:290-321 | A restart goes by a run's manifest exactly when the journal's last state leads to the same verdict. |
| RunJournal.ForgottenTransitions | services/admin/src/mec_cast_admin/store.py:290-321 | With the manifest further on, the verdicts differ for exactly three kinds of transition. |
| RunJournal.StepAgreesExactly | services/admin/src/mec_cast_admin/orchestrator.py:380-382 | For every event, exactly when a run's two files agree after it: it persisted the run, it saved the manifest in a state the journal's verdict matches, or it left the files alone and they agreed. |
| RunJournal.RestartForgetsExactly | services/admin/src/mec_cast_admin/store.py:268-321 | After any run of events from an empty store, a restart forgets what the manifest says exactly when an event parted the files and none brought them together since; the forgotten transition is one of three. |
| RunJournal.TornWriteForgetsExactly | services/admin/src/mec_cast_admin/orchestrator.py:380-382 | A death between the two writes loses the written state exactly when the run has a journal line and the write changed the verdict. |
| RunJournal.TornRemovalForgotten | services/admin/src/mec_cast_admin/orchestrator.py:306-309 | A death between manifest and journal brings any removed draft, whatever else there is, back as a hidden draft. |
| RunJournal.ReportDuringStartForgotten | services/admin/src/mec_cast_admin/orchestrator.py:540-543 | A report that arrives while a start is being sent saves it as starting, and a restart then makes it a draft. |
| OrchestratorProcess.FailMidFlight | services/admin/src/mec_cast_admin/orchestrator.py:95-102 | The loop at startup fails and saves exactly the runs that would hold a slot. |
| OrchestratorProcess.OrchestratorService.ActiveRunIn | services/admin/src/mec_cast_admin/orchestrator.py:128-132 | Finds a run holding the zone's slot if and only if there is one. |
| OrchestratorProcess.OrchestratorService.CreateRun | services/admin/src/mec_cast_admin/orchestrator.py:201-243 | An unknown zone, profile or policy UE is refused, in that order, and changes nothing; otherwise a draft is added and persisted. |
| OrchestratorProcess.OrchestratorService.Act | services/admin/src/mec_cast_admin/orchestrator.py:263-316 | The in-place action is the step of the model, refusals included, and keeps the invariant. |
| OrchestratorProcess.OrchestratorService.SuperviseRun | services/admin/src/mec_cast_admin/orchestrator.py:722-826 | The in-place pass is the step of the model, watchdogs first, and keeps the invariant. |
| RanNormalise.StreamIndexIsLatest | ran/collector/src/normalise.rs:350-359 | The index carried across a stream is what all its scheduler entries teach, in order. |
| RanNormalise.LearntIsLatest | ran/collector/src/normalise.rs:406-421 | The index knows of a DU index exactly the last entry that named it. |
| RanNormalise.RlcRowsNameTheLatest | ran/collector/src/normalise.rs:423-475 | Each RLC row carries the cell and RNTI of the latest scheduler entry naming its DU index, at or before that report, else `du-ue:<index>`. |
| RanMeaning.RowsMean | ran/collector/src/normalise.rs:260-404 | A row is in the output exactly when the report says it: place, time, name, unit and scaled value of a field, a sub-object's number, a list's mean, an event, an RLC counter or average (received is uplink, sent downlink) or a MAC figure. |
| RanMeaning.OutputSize | ran/collector/src/normalise.rs:260-404 | And no measurement gives two rows. |
| RanMeaning.EntriesMean | ran/collector/src/normalise.rs:406-421 | What a report teaches the index: exactly its scheduler UEs with an index and an RNTI, in their own cell or the one they are listed under. |
| RanAgreement.RowOrderMeans | ran/collector/src/normalise.rs:402 | The output goes by cell, then UE, then metric. |
| Text.StringLeMeans | ran/py/src/mec_cast_ran/normalise.py:341 | String order: a prefix first, else by the first character that differs. |
| Text.DecimalReads | ran/collector/src/normalise.rs:202-206 | A printed integer reads back as its value, with no zero in front. |
| RanAgreement.CellTimeAgrees | ran/py/src/mec_cast_ran/normalise.py:297 | The languages give a cell the same time unless its own is 0 and the report's is not. |
| RanAgreement.BlockAgreesExactly | ran/collector/src/normalise.rs:437-474 | One RLC block gives the same rows in both languages exactly when no latency sum is paired with a negative count. |
| RanAgreement.LearnersAgreeExactly | ran/collector/src/normalise.rs:350-359 | From one index, two passes in Rust and one in Python reach the same index exactly when no legacy UE last to teach lacks `pci` under a cell that has one. |
| RanDifference.StreamIndicesAgreeExactly | ran/py/src/mec_cast_ran/normalise.py:279-317 | Over a stream both carry the same index exactly when no UE was last taught without `pci` in the old layout under a cell that has one. |
| RanDifference.ReportRowsAgreeExactly | ran/collector/src/normalise.rs:260-404 | From two such indices the languages emit the same multiset of rows for a report exactly when its cells and messages fit and no message with rows is about a UE on whom the indices differ. |
| RanDifference.NormalisersAgreeExactly | ran/py/src/mec_cast_ran/normalise.py:265-342 | Over any stream both return their rows sorted; they are permutations of the same rows exactly under those conditions on the last report and the stream, and then the same list when no key repeats. |
| RanLoops.NormaliseRust | ran/collector/src/normalise.rs:260-404 | Rust's loops, rows first and a second pass to learn: a row is returned exactly when the report says it, each once, in order; and the index is what the entries teach. |
| RanLoops.NormalisePython | ran/py/src/mec_cast_ran/normalise.py:265-342 | Python's single pass, learning while it emits: a row is returned exactly when the report says it, each once, in order; and the index is what the entries teach. |
| RanLoops.LearnUes | ran/collector/src/normalise.rs:406-421 | The learner's loop over one list of UEs applies its entries in order. |
| Voxels.OccupiedIsCanonical | ros2/src/mec_cast_edge/mec_cast_edge/edge_node.py:99-110 | The occupied voxels are the one strictly sorted list of the cells that hold a point. |
| Voxels.VoxelMeans | ros2/src/mec_cast_edge/mec_cast_edge/edge_node.py:109 | A point's voxel is the cube that holds it, axis by axis. |
| Voxels.VoxelOrderMeans | ros2/src/mec_cast_edge/mec_cast_edge/edge_node.py:109 | Voxels are listed by their first index, then the second, then the third. |
| Voxels.QuantiseKeepsCell | ros2/src/mec_cast_codec/mec_cast_codec/gpcc.py:4-8 | A step that divides the voxel size, from an origin on its grid, moves no coordinate to another voxel, negative ones included. |
| Voxels.QuantiseMeans | ros2/src/mec_cast_codec/mec_cast_codec/gpcc.py:4-8 | Quantising cuts down to the last of the steps counted from the origin. |
| Voxels.VoxelsSurviveExactly | ros2/src/mec_cast_codec/mec_cast_codec/gpcc.py:4-8 | For any origin, all coordinates keep their voxel if and only if the step divides both the voxel size and the origin. |
| Voxels.EncoderOriginOnGrid | ros2/src/mec_cast_codec/mec_cast_codec/gpcc.py:137-152 | For the encoder's origin, floored to the step, the condition is that the step divides the voxel size. |
| Voxels.WarningMeans | ros2/src/mec_cast_edge/mec_cast_edge/edge_node.py:365-378 | A warned precision moves some voxel; an unwarned one moves none exactly unless its steps miss a whole number within the tolerance. |
| Voxels.WarnedMeans | ros2/src/mec_cast_edge/mec_cast_edge/edge_node.py:367-369 | Warned of exactly is a precision of which half a metre is more than a millionth away from every whole number of steps. |
| Voxels.ToleranceHides | ros2/src/mec_cast_edge/mec_cast_edge/edge_node.py:368-369 | A precision that is not warned of and does not divide the voxel size. |
| Voxels.CodingKeepsVoxels | ros2/src/mec_cast_edge/mec_cast_edge/edge_node.py:99-110 | The edge computes the same voxel list from the coded cloud as from the uncoded one, in whatever order and with whatever repeats it decodes. |
| Voxels.CentresReadBack | ros2/src/mec_cast_edge/mec_cast_edge/edge_node.py:113-115 | Voxelising the centres of a voxel list returns the list. |
| Voxels.CentreMeans | ros2/src/mec_cast_edge/mec_cast_edge/edge_node.py:113-115 | A centre is as far from the lower corner of its voxel as from the upper. |
| Voxels.ResultReadsBack | ros2/src/mec_cast_edge/mec_cast_edge/edge_node.py:99-115 | In particular for the list any cloud gives. |
| Dataset.WrittenTiles | tools/lidar_dataset.py:186-222 | The index entries tile the points file back to back, each over its own sweep's words. |
| Dataset.Convert | tools/lidar_dataset.py:178-222 | Fails exactly with no source files; otherwise writes a tiling of the selected sweeps, for any bounds a Python slice takes. |
| Dataset.SelectedMeans | tools/lidar_dataset.py:183 | A file is selected exactly when its place lies between the bounds, negative ones counted from the end, and in order. |
| Dataset.OpenVerdict | ros2/src/mec_cast_lidar_client/mec_cast_lidar_client/replay.py:64-80 | What opening any files refuses and for what, and what it keeps. |
| Dataset.ConversionOpens | ros2/src/mec_cast_lidar_client/mec_cast_lidar_client/replay.py:46-80 | A conversion opens for replay exactly when the start is one of its sweeps and some sweep has a point. |
| Dataset.InterruptedConversionRefused | ros2/src/mec_cast_lidar_client/mec_cast_lidar_client/replay.py:68-75 | The size check refuses every points file of another length. |
| Dataset.ReplayShowsSweeps | ros2/src/mec_cast_lidar_client/mec_cast_lidar_client/replay.py:85-111 | Replaying a conversion shows each sweep's own points, or an even subsample of them; a looping run wraps and any other ends after the last sweep. |
| Dataset.LoopShowsEachOnce | ros2/src/mec_cast_lidar_client/mec_cast_lidar_client/replay.py:85-91 | Any n consecutive frames of a looping run of n sweeps show every sweep exactly once. |
| Dataset.SubsampleSpreads | ros2/src/mec_cast_lidar_client/mec_cast_lidar_client/replay.py:107-110 | A subsample of two or more runs from the first point to the last and takes none twice. |
| Dataset.SubsampleEven | ros2/src/mec_cast_lidar_client/mec_cast_lidar_client/replay.py:107-110 | The subsample is evenly spaced, each row cut to the last whole one. |
| Dataset.PointsMean | ros2/src/mec_cast_lidar_client/mec_cast_lidar_client/replay.py:76 | Three words are a point, in order. |
| Dataset.SubsampleInRange | ros2/src/mec_cast_lidar_client/mec_cast_lidar_client/replay.py:107-110 | Every subsampled row lies in the sweep. |
| MediaJoin.BisectRight | tools/media_join.py:146-147 | The bisection returns how many of the sorted keys are not after t. |
| MediaJoin.AsOfIsScan | tools/media_join.py:146-150 | On every series in time order the bisection answers as a linear scan for the last row with the greatest time not after t, within the age. |
| MediaJoin.BlankExactly | tools/media_join.py:146-150 | A cell is blank exactly when no row lies between t - max_age and t. |
| MediaJoin.LatestIsLast | tools/media_join.py:146-150 | Of several rows at the chosen time the last in the series is taken. |
| MediaJoin.NeverGoesBack | tools/media_join.py:153-164 | Asked later, a series answers with the same row or a later one. |
| MediaJoin.ColumnNeverGoesBack | tools/media_join.py:153-164 | Down a column of the joined table the row chosen never goes backwards. |
| MediaJoin.SeriesAnswersAsFile | tools/media_join.py:103-137 | Sorting a stream and bisecting it answers as scanning its rows in file order, ties included. |
| MediaJoin.SeriesMeans | tools/media_join.py:115-123 | A series holds exactly the rows of one direction from the peer of its first row. |
| MediaJoin.GapsMean | tools/media_join.py:140-142 | The gaps are the steps forward in time between neighbouring rows. |
| MediaJoin.MedianIsMiddle | tools/media_join.py:143 | At least half the gaps are no longer than the median and at least half no shorter. |
| MediaJoin.PeriodMeans | tools/media_join.py:143 | The period is the median gap, or one second where time never moves. |
| MediaJoin.AttachState | tools/media_join.py:153-164 | Every cell of the table is what a scan of its series as of the frame's capture gives. |
| MediaJoin.CellMeans | tools/media_join.py:153-164 | A cell shows its field of the newest row known at capture, unless that is older than the age allowed, twice the period if none is given. |
| MediaJoin.ColumnsMean | tools/media_join.py:43-61 | Every column is named after its leg and its field, and reads the node and direction of that leg. |
| MediaJoin.LoadKeepsLast | tools/media_join.py:74-78 | A site's frames are one entry a sequence number, its last frame row in the file. |
| MediaJoin.LoadKeepsOrder | tools/media_join.py:74-78 | And they are listed as they first appear. |
| MediaJoin.JoinFrames | tools/media_join.py:81-100 | Fails exactly when a frame both sites saw has a blank leg; otherwise returns the legs of the common frames, sorted by capture. |
| MediaJoin.EachCommonFrameOnce | tools/media_join.py:81-100 | The joined frames are exactly those both sites saw, each once. |
| MediaJoin.TableInCaptureOrder | tools/media_join.py:99 | The table is in capture order, frames captured together in the receiver's order, and sorting loses none. |
| MediaJoin.BlankLegs | tools/media_join.py:81-100 | A frame's legs are blank exactly when one of six stamps was never taken. |
| MediaJoin.LegsMean | tools/media_join.py:88-97 | Each leg by the two stamps it lies between. |
| MediaJoin.LegsTelescope | tools/media_join.py:12-18 | The four legs add up to the whole way from send to picture, and with the sender's delay to glass-to-glass; modulo 2^64 always, exactly for stamps after 1970. |

## Left out

- Rounding: means, variances, times in seconds, voxel coordinates, row values and the subsample's positions are reals or rationals, percentile ranks are integer arithmetic.
- DelayStatistics.DelayStats.Snapshot: states the variance, not its square root.
- Recorder.WriterState.TakeMetrics: carries the variance in place of the standard deviation.
- Pipeline.StepKeeps: a push that fails and the count of its drop are one step; in the source they are two accesses, and between them accepted plus dropped is one short of attempts.
- Counters of samples, rows, drops, snapshots, bytes and statistics are unbounded; the originals are 64-bit and would wrap.
- RecorderThreads.RecorderCore.BuildSnapshot: hands on the counters only; the metrics of the same body are `TakeMetrics`, and its JSON text, host name and PTP state are not modelled.
- Thread parking, CSV flushing, write errors and thread panics; the CSV is its rows, the ring and the channel are sequences, and one access to shared state is one step.
- Timestamp.PrintedReadsBack: texts in the fixed-width layout; other texts the parser takes are modelled by `ParseIso8601Ns` and not characterised. `report_timestamp_ns` on numbers and Python's parser are not modelled.
- Timestamp.ParseFraction: counts a fraction's characters where the source takes characters and counts their bytes; the two differ only for text outside ASCII.
- FrameRecorder: deriving a trace id from a run id, and one recorder shared between relay threads.
- Orchestrator: a run's parameters other than its profile, sockets, commands to nodes, findings, UE maps, RAN policies and logging; what the registry, the disk and the recording time say are arguments of a step. A pass reads the clock once where the source may read it twice.
- Orchestrator.OneRunPerZone: says nothing of what a stop frame does on a node, since those frames are not scoped to a run there.
- OrchestratorProcess: `act` after its broadcast and the plain save are steps of the model without a method of their own beyond `PersistRun`; fields of a run other than zone, state, removal and reports are not modelled.
- Text of manifests and the journal, malformed lines and unreadable manifests; a run store is a manifest a run and the journal's last word on it.
- RanNormalise: JSON typing of a report and its timestamps are taken as done, numbers that name things are integers, and the tables of canonical names are a parameter both languages share. Float formatting, KPM rows and throughput sums are not modelled.
- Voxels: the codec is taken as flooring to the step from its origin, as `gpcc.py` documents it; the centroid and the cast of voxel indices to 32 bits are left out.
- Dataset: reading a source format into whole points is a precondition of `Convert`; sweeps cut short, the file format's name and version, and prefetching are not modelled.
- MediaJoin.JoinFrames: sequence numbers and delays are integers or blank, as the recorder writes them, not text.
- MediaJoin.SeriesAnswersAsFile: rates derived from consecutive counters are fields of a row here; medians, percentiles and the printed summary are not modelled beyond the default age.
- The legacy C++ statistics, the RAN as-of join, the MAT reader, PRB policies, batchers, clock selection and the media servers: easier members of the same kinds, or foreign code.
