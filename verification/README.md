# Verified model of rustcast's algorithmic core

rustcast streams a desktop: a host captures and encodes frames (Rust), a relay forwards them and
records audit events (Go), and a browser client reorders, decodes and plays them (TypeScript and
JavaScript).  This project models the stateful and arithmetic parts of all three and proves what
they promise.  Every module follows one source component; code that updates fields, tables or
buffers in place is a class or a method with loops, proved equal to a function on values, and the
theorems over whole runs are about those functions.

| modules | component |
|---|---|
| `SequencerSpec`, `SequencerSafety`, `SequencerRuns`, `SequencerWrap`, `SequencerOrder`, `SequencerRecovery`, `SequencerCounts`, `Sequencer` | the browser's frame sequencer |
| `AuditSpec`, `AuditRelay`, `AuditProtocol`, `AuditSafety`, `AuditRecovery`, `AuditMetric`, `AuditRuns`, `AuditForward` | audit forwarding between a relay and its parent, as a two-party protocol |
| `Scale`, `Nv12` | pixel kernels: bilinear downscaling and RGB to NV12 |
| `H264`, `H264Scan` | Annex B parsing and the two keyframe tests |
| `BweIndex`, `BweControl`, `BweRuns`, `Abr`, `Bwe` | bandwidth estimation and bitrate control |
| `FramePool`, `FrameQueue`, `Pusher`, `Upstream` | the relay's frame buffers, frame queue and pusher |
| `HostLink` | the hub of parked host connections |
| `Pacer` | capture pacing |
| `AudioFramer` | cutting captured audio into encoder frames |
| `AudioRing`, `AudioSink` | the browser's audio ring buffer |
| `Basics` | small shared types and lemmas |

## Conventions

- Times and durations are integer nanoseconds, except in `AudioFramer`, where they are real
  seconds.  Clocks are parameters.  Floating-point factors are exact rationals.
- Sequence numbers of the sequencer exist in two arithmetics: `Wrapping` (unsigned 32-bit, as in
  the code and in section 3.2 of RFC 1982) and `Unbounded` (true frame indices).  The same
  functions are used with both.
- A component shared by several goroutines is a state machine whose steps are the sections the
  code runs under a lock nobody else can bypass, or single channel and pool operations.  Where a
  crash matters, as in audit forwarding, a step is at most one commit to the store or one change of
  the metric.  Its theorems hold for every interleaving.  The methods of its class take the state they start from as
  a ghost argument and end in the counterpart of the next one.
- The dropped-events metric of the audit forwarder is a total over restarts; the counter a process
  exports starts again at zero.
- Annex B and emulation prevention are those of section B.1 and sections 7.3.1 and 7.4.1 of
  ITU-T H.264.

## Where the code and what is said about it differ

- The browser's keyframe test and the relay's do not agree on all inputs.  `KeyframeTestsDiffer`
  gives two inputs and `KeyframeTestsAgree` the exact set: data with no start code at all, and data
  that ends in a three-byte start code and one byte.
- The audio sink's `dropped` counter does not count samples overwritten inside one oversized push:
  `OverwrittenIsNotCounted` gives such a push, `DroppedIsExact` says exactly when the counter is
  right, and `Conservation` gives a push size that is always safe.
- The browser's `removeEmulationPrevention` leaves the final byte of an encapsulation in place when
  the payload ends in an odd number of zero bytes.  `OddZeroStays` gives such a payload and
  `EncapsulationIsUndone` the exact condition.  The standard's own payloads end in an even number.
- The drop metric of the audit forwarder is not the number of dropped events.  It misses those
  whose rows were deleted when the process ended before counting them (`DroppedUncounted` is such a
  run), and it counts events the relay acknowledged when their rows outlive a crash and are found
  expired (`AcknowledgedCounted`).  `GapChanges` says for every step exactly when the two part, and
  `MetricIsExact` for which runs they agree.
- A full forwarder that ends between the insert and the eviction of an enqueue loses the oldest
  event in flight and brings back the one it was about to evict.  `OverfullRestart` is such a run,
  and `PendingIsRestored` the exact condition under which an event is not restored.
- The bitrate target of the relay is not always what the encoder was told, because a command that
  finds the channel full is dropped after the target has changed.  `EncoderKnowsTarget` is the exact
  condition and `EncoderNeverTold` a family of runs in which the encoder is never told.
- A session is bound before its first keyframe is asked for, so its first frame may be a delta:
  `FirstFrame` says exactly when, and `DeltaFollowsKeyframe` what holds afterwards.
- The sequencer counts a buffered frame that a keyframe overtakes twice as dropped, once as skipped
  over and once as purged.  `StepAccounts` and `RunAccounts` say exactly what else is counted.
- The downscaler's step per target pixel is cast to 32 bits.  `PositionIsExact` says that a target pixel
  is sampled at the right place if and only if the step fits.
- In the estimator's congested branch the test for half a second since the last change never
  fires, because a change never comes after the last update; `UpdateInRange` therefore gives the
  lowered target for every congested update that is acted upon.

## Model

| member | source | states |
|---|---|---|
| `Sequencer.SequenceDistance` | flux-web/ui/lib/frame-sequencer.ts:180-182 | the distance is the unique number below 2^32 that leads from the expected number to the other one modulo 2^32 |
| `Sequencer.FrameSequencer.Push` | flux-web/ui/lib/frame-sequencer.ts:25-81 | the in-place push ends in the state and returns the result of the specification, keeping the invariant |
| `Sequencer.FrameSequencer.MarkLost` | flux-web/ui/lib/frame-sequencer.ts:83-101 | the same for a reported loss |
| `Sequencer.FrameSequencer.Expire` | flux-web/ui/lib/frame-sequencer.ts:103-141 | the same for gap expiry, including its nested loops |
| `Sequencer.FrameSequencer.ConsumeFrame` | flux-web/ui/lib/frame-sequencer.ts:143-153 | releasing or discarding one frame is the specification's step |
| `Sequencer.FrameSequencer.DrainBuffered` | flux-web/ui/lib/frame-sequencer.ts:155-163 | the drain loop consumes the maximal consecutive run of buffered frames and settles the gap timer |
| `Sequencer.FrameSequencer.FindNext` | flux-web/ui/lib/frame-sequencer.ts:165-177 | the scan finds the buffered frame at the smallest wrapping distance, passing over one that is 2^32 - 1 ahead |
| `Sequencer.NearestUnique` | flux-web/ui/lib/frame-sequencer.ts:165-177 | that frame is unique, so the scan order does not matter |
| `SequencerSafety.PushKeeps` | flux-web/ui/lib/frame-sequencer.ts:25-81 | a push keeps: only deltas buffered, all strictly ahead of the expected number, at most the limit, gap timer set when any are |
| `SequencerSafety.MarkLostKeeps` | flux-web/ui/lib/frame-sequencer.ts:83-101 | a loss report keeps the same |
| `SequencerSafety.ExpireKeeps` | flux-web/ui/lib/frame-sequencer.ts:103-141 | expiry keeps the same |
| `SequencerSafety.StepKeeps` | flux-web/ui/lib/frame-sequencer.ts:25-141 | so every call does, in both arithmetics |
| `SequencerSafety.ExpiredGap` | flux-web/ui/lib/frame-sequencer.ts:103-141 | a timed-out gap terminates, empties the buffer, releases nothing, moves the expected number just past the farthest frame, and its drop count is exactly that distance |
| `SequencerRuns.StepLinks` | flux-web/ui/lib/frame-sequencer.ts:25-163 | what one call releases continues the decode chain where the previous release ended |
| `SequencerRuns.EmittedIsDecodable` | flux-web/ui/lib/frame-sequencer.ts:25-163 | over every run with any order, loss or duplication: the first frame released is a keyframe and every delta is numbered one after its predecessor |
| `SequencerRuns.StepAdvances` | flux-web/ui/lib/frame-sequencer.ts:25-163 | on true indices one call never releases at or before the position already reached |
| `SequencerRuns.EmittedIncreases` | flux-web/ui/lib/frame-sequencer.ts:25-163 | over every run the released indices strictly increase, so nothing is released twice |
| `SequencerWrap.StepSim` | flux-web/ui/lib/frame-sequencer.ts:25-182 | one call on 32-bit numbers decides exactly as on true indices while those stay within 2^31 |
| `SequencerWrap.WrappingRefinesUnbounded` | flux-web/ui/lib/frame-sequencer.ts:25-182 | so do whole runs: same releases in the same order, matching states |
| `SequencerWrap.WrappedEmissionsIncrease` | flux-web/ui/lib/frame-sequencer.ts:25-182 | what a wrapping run releases is the image of strictly increasing true indices |
| `SequencerOrder.ReorderedStreamComesOutWhole` | flux-web/ui/lib/frame-sequencer.ts:25-163 | a keyframe and any number of deltas after it come out complete and in order after any repetition, and any reordering in which no frame overtakes one as many places ahead as the buffer holds; the timer may fire at any moment as long as something missing is not overdue, and losses of released frames may be reported |
| `SequencerOrder.HarmlessIsIdle` | flux-web/ui/lib/frame-sequencer.ts:83-141 | a timer tick changes nothing while no early frame is overdue and nothing was missing at some moment within the timeout, and neither does a loss report of a frame all frames up to which have arrived |
| `SequencerOrder.GapIsYoung` | flux-web/ui/lib/frame-sequencer.ts:103-108 | a gap timed now was started by a call made after the last moment without a gap |
| `SequencerOrder.ShortStreamIsPunctual` | flux-web/ui/lib/frame-sequencer.ts:25-81 | a stream no longer than the buffer limit may arrive in any order at all |
| `SequencerOrder.WrappedStreamComesOutWhole` | flux-web/ui/lib/frame-sequencer.ts:25-182 | the same on 32-bit numbers that start anywhere and wrap any number of times, if no call names a frame 2^31 places late |
| `SequencerRecovery.KeyframeComesOut` | flux-web/ui/lib/frame-sequencer.ts:57-80 | in both arithmetics a keyframe that is not behind is released at once, followed by exactly the buffered frames that follow on; the sequencer is then synchronised one past the last of them, what the keyframe overtook is gone and all else stays buffered |
| `SequencerRecovery.ExpectedComesOut` | flux-web/ui/lib/frame-sequencer.ts:60-81 | so is a delta whose turn it is, unless a keyframe is awaited; then it is counted and one is requested |
| `SequencerRecovery.RecoveredStreamComesOutWhole` | flux-web/ui/lib/frame-sequencer.ts:25-163 | after any run at all, a stream whose keyframe is not behind comes out whole and in order once it arrives, if no other frame of it overtakes a missing one by more than the free part of the buffer and no gap is left open too long |
| `SequencerRecovery.RecoveredOnTheWire` | flux-web/ui/lib/frame-sequencer.ts:25-182 | the same on 32-bit numbers |
| `SequencerCounts.RequestedWhenNeeded` | flux-web/ui/lib/frame-sequencer.ts:25-141 | in both arithmetics a call requests a keyframe if and only if it gives up frames, other than late ones and those a keyframe overtakes, or reports a loss before the first keyframe |
| `SequencerCounts.StepAccounts` | flux-web/ui/lib/frame-sequencer.ts:25-163 | every position a call passes over is a frame released or counted as dropped; what is counted besides is a late frame, one that found the buffer full, early frames that expired, and a second time each frame a keyframe overtook |
| `SequencerCounts.RunAccounts` | flux-web/ui/lib/frame-sequencer.ts:25-163 | the same added up over any run of a synchronised sequencer |
| `SequencerCounts.AwaitingIsCountedApart` | flux-web/ui/lib/frame-sequencer.ts:25-141 | which of the dropped frames are counted as awaiting a keyframe |
| `AuditSpec.BatchIsLongestPrefix` | flux-web/audit_forward.go:371-421 | a batch is the longest queue prefix within 50 events and 6 MiB, and at least one event while any is queued |
| `AuditSpec.SizeIsLength` | flux-web/audit_forward.go:407-414 | the size compared with 6 MiB is the length of the JSON text with its commas |
| `AuditSpec.UnexpiredIsYoung` | flux-web/audit_forward.go:374-385 | what the filter keeps is exactly what is no older than the retention time, when there is one |
| `AuditSpec.UsableExactly` | flux-web/store.go:240-258 | a row comes back if and only if it has not expired, parses, and holds the event of its id |
| `AuditRelay.IngestAllOrNothing` | flux-web/audit_forward.go:124-219 | an accepted batch is stored completely, each id once and nothing else; any other reply changes nothing |
| `AuditRelay.AcceptedIsStored` | flux-web/store.go:644-665 | every event of an accepted batch is in the relay's tables |
| `AuditRelay.IngestIdempotent` | flux-web/store.go:644-665 | the same batch a second time changes nothing |
| `AuditRelay.OnlyValidIsAccepted` | flux-web/audit_forward.go:137-199 | a batch is accepted if and only if the machine is registered, the store is up, there are at most 50 events, and each has a 32-digit id and is a login or a clipboard event whose size, digest and data agree |
| `AuditRelay.EventIsRecorded` | flux-web/audit_forward.go:166-206 | an accepted event with a new id has exactly one row afterwards, field by field as sent; its content is the decoded data exactly when the policy captures that many bytes and there are some |
| `AuditSafety.PersistKeeps` | flux-web/audit_forward.go:334-341 | inserting a row keeps: the table is exactly the answered, in-flight, queued and arriving events in order of arrival, at most 1051, of which at most 1000 are queued or in flight |
| `AuditSafety.EvictKeeps` | flux-web/audit_forward.go:342-355 | evicting the oldest queued event, from memory and table, keeps the same |
| `AuditSafety.EvictsOldest` | flux-web/audit_forward.go:342-346 | the evicted event arrived before all others in the queue |
| `AuditSafety.AppendKeeps` | flux-web/audit_forward.go:356-358 | queueing the new event keeps the same, at most 1000 included |
| `AuditSafety.ExpireKeeps` | flux-web/audit_forward.go:374-397 | dropping expired events from memory and table keeps the same |
| `AuditSafety.CutKeeps` | flux-web/audit_forward.go:398-421 | cutting a batch keeps the same |
| `AuditSafety.DeliverKeeps` | flux-web/audit_forward.go:124-219 | delivery of anything ever posted, late or repeated, keeps the same and the relay's uniqueness |
| `AuditSafety.AckKeeps` | flux-web/audit_forward.go:423-427 | finishing an acknowledged batch keeps the same: all its events are stored at the relay |
| `AuditSafety.RejectKeeps` | flux-web/audit_forward.go:496-500 | giving a batch up as rejected keeps the same |
| `AuditSafety.DeleteFinishedKeeps` | flux-web/store.go:281-306 | deleting a finished batch's rows keeps the same |
| `AuditSafety.RetryKeeps` | flux-web/audit_forward.go:439-448 | putting the batch back in front keeps the same |
| `AuditRecovery.CrashKeeps` | flux-web/audit_forward.go:484-521 | ending the process between any two commits keeps the same for the table, with up to 1001 pending rows |
| `AuditRecovery.RestoredWithinSecond` | flux-web/store.go:214-222 | a row keeps payload and id, and what comes back is at most a second early and never late |
| `AuditRecovery.LoadIsDeletion` | flux-web/store.go:225-279 | a reload deletes from the table exactly the events it does not bring back |
| `AuditRecovery.LoadKeeps` | flux-web/audit_forward.go:247-274 | reading the table back keeps the invariant |
| `AuditRecovery.ExactlyOnce` | flux-web/audit_forward.go:334-521 | in every state of every run with losses, repeats, retries and crashes: the relay holds no event twice and every acknowledged or accepted one exactly once |
| `AuditRecovery.RestartRestores` | flux-web/store.go:225-279 | a restart brings back every unexpired pending event in order of arrival, preceded by as many answered ones with rows as there is room for, except that of 1001 the oldest is left behind |
| `AuditRecovery.WaitingSize` | flux-web/audit_forward.go:334-358 | there are at most 1001 of them, and 1001 exactly when an event has been inserted next to 1000 queued or in flight and none has expired |
| `AuditRecovery.PendingIsRestored` | flux-web/store.go:225-279 | a pending unexpired event is not restored if and only if it is the oldest and the process ended between that insert and the eviction |
| `AuditMetric.StepDrops` | flux-web/audit_forward.go:342-521 | the set of dropped events grows by exactly what a step gives up on: the oldest queued event, expired ones, a rejected batch or what a reload leaves behind, acknowledged ones excepted |
| `AuditMetric.DroppedByAStep` | flux-web/audit_forward.go:334-521 | over every run an event is dropped if and only if some step gave up on it before it was acknowledged |
| `AuditMetric.NothingLost` | flux-web/audit_forward.go:334-521 | in every state each event ever persisted is in the table, acknowledged, or given up on by a step; the table is in order of arrival and within its bounds |
| `AuditMetric.GapChanges` | flux-web/audit_forward.go:342-505 | one step moves the metric, with what is about to be counted, against the number of dropped events if and only if it ends the process with something uncounted or gives up on an acknowledged event, and by that many |
| `AuditMetric.MetricMoves` | flux-web/audit_forward.go:342-505 | the metric alone moves against that number if and only if the step counts or drops something |
| `AuditMetric.MetricOverRun` | flux-web/audit_forward.go:342-505 | over every run the metric is off by the acknowledged events given up on less those crashes kept from being counted |
| `AuditMetric.TwiceOnlyByCrash` | flux-web/audit_forward.go:423-437 | an acknowledged event is pending again only after a crash before its row was deleted |
| `AuditMetric.MetricIsExact` | flux-web/audit_forward.go:247-521 | in a run whose crashes all come when nothing is left to count and no acknowledged batch left to delete, the metric is the number of dropped events |
| `AuditRuns.DroppedUncounted` | flux-web/audit_forward.go:496-505 | a run that ends with an event dropped, its row gone and the metric at zero |
| `AuditRuns.AcknowledgedCounted` | flux-web/audit_forward.go:260-271 | a run that ends with nothing dropped, an event acknowledged and the metric at one |
| `AuditRuns.OldestInFlightIsLost` | flux-web/audit_forward.go:337-355 | a restart in such an overfull state drops the oldest event in flight and brings back the one about to be evicted |
| `AuditRuns.OverfullRestart` | flux-web/audit_forward.go:337-355 | a run of a thousand events that gets there, whatever the retention |
| `AuditForward.OwnBatchIsAccepted` | flux-web/audit_forward.go:276-317 | a batch made of the forwarder's own events passes every check of the relay |
| `AuditForward.ClipboardArrives` | flux-web/audit_forward.go:291-317 | size and digest in the relay's row are those of the data on the machine, and its content is that data exactly when both sides capture that much |
| `AuditForward.LoginArrives` | flux-web/audit_forward.go:276-289 | the relay's login row has the machine and the fields the forwarder was given |
| `AuditForward.FreshInTable` | flux-web/store.go:214-223 | a fresh id is not in the queue table, so persisting it succeeds |
| `AuditForward.AuditStore.PersistForwardEvent` | flux-web/store.go:214-223 | appends a row exactly when the id is new |
| `AuditForward.AuditStore.DeleteForwardEvents` | flux-web/store.go:281-306 | removes exactly the rows with these ids |
| `AuditForward.AuditStore.LoadForwardQueue` | flux-web/store.go:225-279 | returns the newest usable events, counts the others and deletes exactly their rows |
| `AuditForward.AuditStore.Reload` | flux-web/audit_forward.go:260-267 | queue, table and drop count at start-up are those of the protocol's load and count |
| `AuditForward.AuditStore.InsertForwardedAudit` | flux-web/store.go:644-665 | one transaction inserts all rows, skipping ids already stored |
| `AuditForward.AuditStore.HandleBatch` | flux-web/audit_forward.go:124-219 | the handler's reply and tables are those of the specified ingest |
| `AuditForward.AuditForwarder.constructor` | flux-web/audit_forward.go:247-274 | a new forwarder over a store that outlived its process is the counterpart of the state after the protocol's load and count, drops counted earlier included |
| `AuditForward.AuditForwarder.Enqueue` | flux-web/audit_forward.go:334-363 | the in-place enqueue passes through the protocol's insert, eviction, count and append |
| `AuditForward.EnqueueIsRun` | flux-web/audit_forward.go:334-363 | that is a run of two enabled steps, or four when the forwarder is full |
| `AuditForward.NextBatchIsRun` | flux-web/audit_forward.go:371-421 | and so is cutting a batch: expiry, count and cut |
| `AuditForward.ReloadIsRun` | flux-web/audit_forward.go:247-274 | and so is starting up: load and count |
| `AuditForward.AuditForwarder.CutBatch` | flux-web/audit_forward.go:371-421 | the greedy loop takes the specified prefix off the queue |
| `AuditForward.AuditForwarder.NextBatch` | flux-web/audit_forward.go:371-421 | expiry, its count and the greedy loop are the protocol's steps |
| `AuditForward.AuditForwarder.FinishBatch` | flux-web/audit_forward.go:423-427 | clearing the in-flight batch is the protocol's step |
| `AuditForward.AuditForwarder.CountRejectedBatch` | flux-web/audit_forward.go:498-506 | counting a rejected batch is the protocol's step |
| `AuditForward.AuditForwarder.DeleteBatch` | flux-web/audit_forward.go:428-437 | deleting its rows is the protocol's step |
| `AuditForward.AuditForwarder.RetryBatch` | flux-web/audit_forward.go:439-448 | requeueing is the protocol's step |
| `Scale.FitWithinFits` | flux/crates/flux-encode/src/scale.rs:26-42 | the target exceeds neither maximum nor source, keeps a source that fits, and otherwise is even, fills the limiting side and keeps the aspect ratio within two pixels |
| `Scale.FittedTargetIsAccepted` | flux/crates/flux-encode/src/scale.rs:64-71 | downscaling to a fitted target never fails |
| `Scale.ClampIdle` | flux/crates/flux-encode/src/scale.rs:86-96 | the clamps to the last but one row and column never act |
| `Scale.PositionIsExact` | flux/crates/flux-encode/src/scale.rs:86-96 | target pixel i of d is sampled i/d of the way across, to within i/256 of a pixel, if and only if the step fits in 32 bits |
| `Scale.BlendBounds` | flux/crates/flux-encode/src/scale.rs:168-183 | 16-bit intermediates never overflow and the blend stays between any bounds on its four bytes |
| `Scale.RefPixelBetween` | flux/crates/flux-encode/src/scale.rs:251-275 | each output byte lies between the least and greatest of its four source bytes |
| `Scale.ReferenceAt` | flux/crates/flux-encode/src/scale.rs:251-275 | which byte of the reference output belongs to which target pixel |
| `Scale.AffineSurvives` | flux/crates/flux-encode/src/scale.rs:251-275 | where the source byte is affine in x and y, each output byte is the affine value at the sampled point rounded down |
| `Scale.Sse2LaneAgrees` | flux/crates/flux-encode/src/scale.rs:154-165 | wrapping 16-bit lane arithmetic gives the scalar result |
| `Scale.InterpolateRow` | flux/crates/flux-encode/src/scale.rs:168-175 | fills a row with the horizontal pass |
| `Scale.BlendRows` | flux/crates/flux-encode/src/scale.rs:178-183 | writes the vertical pass of two rows and nothing before it |
| `Scale.DownscaleRows` | flux/crates/flux-encode/src/scale.rs:99-137 | the row-caching separable filter equals the per-pixel bilinear reference |
| `Scale.DownscaleFrame` | flux/crates/flux-encode/src/scale.rs:48-137 | the unchanged frame, every error case in order, or the reference image |
| `Nv12.LimitedRange` | flux/crates/flux-encode/src/nv12.rs:154-164 | luma is within 16 to 235 and chroma within 16 to 240, so the clamps never act |
| `Nv12.GreyIsNeutral` | flux/crates/flux-encode/src/nv12.rs:154-164 | grey pixels have neutral chroma and luma grows with brightness |
| `Nv12.LumaAt` | flux/crates/flux-encode/src/nv12.rs:275-310 | where the reference puts a pixel's luma |
| `Nv12.LumaBytes` | flux/crates/flux-encode/src/nv12.rs:275-296 | a pixel's luma from its bytes at y * stride + 4x: green second, red third and blue first in BGRA, the other way round in RGBA |
| `Nv12.ChromaAt` | flux/crates/flux-encode/src/nv12.rs:275-310 | where the reference puts the chroma of the average of a 2x2 block |
| `Nv12.ChromaBytes` | flux/crates/flux-encode/src/nv12.rs:297-310 | a block's chroma from the means of the red, green and blue bytes of two pixels in two rows, in either order |
| `Nv12.SourceRowHolds` | flux/crates/flux-encode/src/nv12.rs:93-110 | a pixel read from a row slice by channel offsets is the pixel the reference looks up by stride and channel order |
| `Nv12.ReadBlock` | flux/crates/flux-encode/src/nv12.rs:112-123 | the four pixels of a 2x2 block, read from an eight-byte chunk of each row |
| `Nv12.ConvertRowPair` | flux/crates/flux-encode/src/nv12.rs:103-141 | fills two luma rows and a chroma row from two source rows, odd column included, and touches nothing behind them |
| `Nv12.ConvertRows` | flux/crates/flux-encode/src/nv12.rs:93-152 | the fused single pass over the source bytes equals the two-pass reference for every size, odd ones included |
| `Nv12.PackedRgbToNv12` | flux/crates/flux-encode/src/nv12.rs:62-88 | for every stride and channel order: the reference output, or the error for a buffer that is too small |
| `H264.FindIsFirst` | flux-web/ui/lib/h264.ts:36-45 | the start code found is the first one, and none is missed |
| `H264.SplitInvertsPrint` | flux-web/ui/lib/h264.ts:6-22 | splitting inverts Annex B printing for any units, start-code lengths and zero padding |
| `H264.UnprotectInvertsProtect` | flux-web/ui/lib/h264.ts:47-60 | removing emulation prevention inverts inserting it, for every payload and whatever follows it |
| `H264.EncapsulationIsUndone` | flux-web/ui/lib/h264.ts:47-60 | with the final byte the standard adds, the payload comes back if and only if it ends in an even number of zero bytes |
| `H264.OddZeroStays` | flux-web/ui/lib/h264.ts:47-60 | a payload for which it does not |
| `H264.NalIsPrintable` | flux-web/ui/lib/h264.ts:6-22 | an encapsulated payload under a non-zero header never holds a start code or ends in zero |
| `H264.PayloadSurvives` | flux-web/ui/lib/h264.ts:6-60 | any payloads under non-zero headers, encapsulated, printed and split, arrive as sent, and each payload comes back if and only if it ends in an even number of zero bytes |
| `H264.KeyframeTestsAgree` | flux-web/frame.go:65-83 | the exact inputs on which the browser's and the relay's keyframe tests differ |
| `H264.KeyframeTestsDiffer` | flux-web/frame.go:65-83 | two inputs on which they do |
| `H264.PrintedKeyframes` | flux-web/frame.go:65-83 | on printed streams of units of at least two bytes both say whether some unit is an IDR slice |
| `H264Scan.FindStartCode` | flux-web/ui/lib/h264.ts:36-45 | the scan returns the first start code at or after a position, and its length |
| `H264Scan.AnnexBNalUnits` | flux-web/ui/lib/h264.ts:6-22 | the loop returns the specified units with their types |
| `H264Scan.RemoveEmulationPrevention` | flux-web/ui/lib/h264.ts:47-60 | the loop returns the specified payload |
| `H264Scan.IsIdrFrame` | flux-web/frame.go:65-83 | the skipping loop computes the specified test |
| `BweIndex.PurgeYoung` | flux-web/bwe.go:77-90 | the filter keeps exactly the frames no older than ten seconds, each with its entry |
| `BweIndex.SentKeeps` | flux-web/bwe.go:77-103 | every awaited frame has a matching send-order entry, at most 256 are awaited, the newest is among them, and at most one young frame is given up, only at the limit; no assumption on sequence numbers is needed |
| `BweIndex.OldestIsEvicted` | flux-web/bwe.go:96-102 | for sends in order of time the one given up was sent no later than any that stays |
| `BweIndex.TakenStaysCovered` | flux-web/bwe.go:147-158 | acknowledging or forgetting a frame keeps every other frame's entry |
| `BweIndex.PruneIsWindow` | flux-web/bwe.go:118-138 | the pruned sample list is the full history filtered to the last ten seconds |
| `BweIndex.QueueDelayBounds` | flux-web/bwe.go:139-140 | queueing delay, measured against the true window minimum, is never negative and never above the sample itself |
| `BweIndex.QueueDelayIsExcess` | flux-web/bwe.go:123-140 | it is the excess over the least delay of the ten seconds up to the sample, which some sample attains |
| `BweControl.CeilingSetsRange` | flux-web/bwe.go:178-189 | a ceiling brings any target into its range |
| `BweControl.ClampIsNearest` | flux-web/bwe.go:252-265 | a target in range stays and any other goes to the nearer bound |
| `BweControl.CeilingMovesOnlyDown` | flux-web/bwe.go:178-189 | a ceiling lowers the target to itself and otherwise leaves it |
| `BweControl.UpdateInRange` | flux-web/bwe.go:191-237 | an update stays in range; an effective congested one strictly lowers the target, a calm one never does |
| `BweControl.StepSizes` | flux-web/bwe.go:217-232 | a congested update takes off 15 %, a calm one that is acted upon adds 12 %, rounded to the nearest unit, floor and ceiling apart |
| `BweControl.CalmRaises` | flux-web/bwe.go:225-236 | a calm update the timers allow raises the target until it is at the ceiling |
| `BweControl.RunInRange` | flux-web/bwe.go:178-265 | over every run the target stays between 1500 and the ceiling, at most 50000 |
| `BweControl.TimersHold` | flux-web/bwe.go:191-237 | over every run: updates at least 500 ms apart, increases at least 2 s after any change and 1 s after any congested update |
| `BweControl.CongestionReachesFloor` | flux-web/bwe.go:212-224 | 22 congested updates bring any target to the floor, whatever ceilings come between |
| `BweControl.AtMostTwentyTwoDecreases` | flux-web/bwe.go:212-224 | without an increase in between the target is lowered at most 22 times |
| `BweControl.RisesInTime` | flux-web/bwe.go:225-236 | a calm update in time keeps the target on a schedule of rises two seconds and a gap apart |
| `BweRuns.LoweredByMeasurement` | flux-web/bwe.go:191-211 | from a target in range and above the floor a due update lowers it if and only if the recent queue average exceeds 30 ms, the round-trip time is inflated by over 50 ms, or more than one packet in twenty was lost |
| `BweRuns.CalmPathReachesCeiling` | flux-web/bwe.go:77-237 | over any run in which all delays are equal, nothing is lost and inflation stays within 50 ms, the target never falls, and is at the ceiling once there was time for 31 rises |
| `BweRuns.InflatedPathReachesFloor` | flux-web/bwe.go:160-224 | over any run in which the round-trip time is always inflated by over 50 ms, 22 updates bring the target to the floor |
| `BweRuns.AckMeasures` | flux-web/bwe.go:105-126 | an acknowledgement is measured if and only if the frame is awaited, was sent within ten seconds and the reading is finite and not negative; the sample is the time since sending |
| `BweRuns.SustainedQueueIsNoticed` | flux-web/bwe.go:141-144 | from any average three queueing delays of 60 ms bring it above 30 ms |
| `BweRuns.SlowFramesLowerTarget` | flux-web/bwe.go:105-224 | and so lower the target at the next due update within a second |
| `BweRuns.LossLowersTarget` | flux-web/bwe.go:160-224 | over one packet in twenty lost since the last report lowers the target at the next due update |
| `BweRuns.NewIsFresh` | flux-web/bwe.go:60-75 | a new estimator with a ceiling meets the conditions of these runs |
| `Abr.CommandsObeyCeiling` | flux-web/abr.go:67-77 | over every run each command issued is at most the non-zero sender ceiling in force, estimate commands are 500 ms apart, no command repeats the one before, the target is the last one issued and the encoder's rate the last one delivered |
| `Abr.EncoderKnowsTarget` | flux-web/abr.go:215-224 | after every run the encoder was told the target if and only if the last command was delivered, or at least two were dropped since and the last asks for the rate it already has |
| `Abr.EncoderFallsBehind` | flux-web/abr.go:215-224 | one event makes the encoder fall behind if and only if it issues a command that finds no room |
| `Abr.EncoderNeverTold` | flux-web/abr.go:173-224 | after a first command was dropped, the same estimate any number of times issues nothing more and the encoder is never told |
| `Abr.EstimateIsTracked` | flux-web/abr.go:173-213 | after a due estimate the target is within a tenth of the clamped estimate, and equal to it at the floor and the ceiling |
| `Abr.CommandIffMaterial` | flux-web/abr.go:173-213 | an estimate makes a command if and only if it is not zero, half a second has passed, and the clamped rate is the first, or is new and is the floor, the ceiling or a tenth or more away |
| `Abr.ClampedIsNearest` | flux-web/abr.go:180-185 | an estimate is raised to the floor and then lowered to the sender's ceiling |
| `Abr.SenderLowers` | flux-web/abr.go:67-77 | a sender rate below the target is passed on at once, and no other is |
| `Abr.StartsAtSenderRate` | flux-web/abr.go:85-108 | a session starts at the sender's rate brought into range |
| `Abr.EstimatorInRange` | flux-web/abr.go:85-108 | an estimator started from the sender's ceiling is in range over every run |
| `Bwe.DeliveryEstimator.OnFrameSent` | flux-web/bwe.go:77-103 | the two loops compute the specified index and keep its invariant; for sends in order of time the order stays so and the oldest is the one evicted |
| `Bwe.DeliveryEstimator.OnFrameAck` | flux-web/bwe.go:105-145 | removes the frame; a usable acknowledgement adds its sample to the history, keeps the window exact and averages the queueing delay, any other changes nothing else |
| `Bwe.DeliveryEstimator.Forget` | flux-web/bwe.go:147-158 | removes the frame and all its entries, keeping the others and their order of time |
| `Bwe.DeliveryEstimator.OnTransportStats` | flux-web/bwe.go:160-176 | adds counter increases to the loss window, ignoring counters that went back |
| `Bwe.DeliveryEstimator.SetCeiling` | flux-web/bwe.go:178-189 | is the control law's ceiling step |
| `Bwe.DeliveryEstimator.Update` | flux-web/bwe.go:191-237 | is the specified update; from a target in range and above the floor it lowers it exactly when a measurement exceeds its threshold; judges congestion from queue, round-trip time and loss, and is the control law's update step |
| `Bwe.AbrState.SetSenderTarget` | flux-web/abr.go:67-77 | is the specified step, whether or not the channel has room, and returns the command it issues |
| `Bwe.AbrState.OnEstimate` | flux-web/abr.go:173-196 | is the specified step, whether or not the channel has room, and returns the command it issues |
| `Bwe.AbrState.SendBitrateCommand` | flux-web/abr.go:215-224 | sets the encoder-target gauge exactly when the command finds room |
| `FramePool.BestFitIsBest` | flux-web/upstream.go:84-93 | the pool's scan finds a large enough buffer exactly when there is one, and no smaller one would do |
| `FramePool.CachedGet` | flux-web/upstream.go:84-108 | a buffer handed out leaves the pool or is new, is large enough, and the pool gains nothing |
| `FramePool.GetReuses` | flux-web/upstream.go:84-108 | if a cached buffer is large enough the smallest such one is handed out |
| `FramePool.GetAllocates` | flux-web/upstream.go:94-108 | if none is, a new one of the size asked for is made and one too small gives up its place |
| `FramePool.PutIsReused` | flux-web/upstream.go:110-119 | a buffer given back while there is room is handed out again |
| `FramePool.LatestIsLastIdr` | flux-web/upstream.go:288-307 | skipping ahead keeps the last IDR frame if any, otherwise the last frame |
| `FrameQueue.StepKeepsOne` | flux-web/upstream.go:351-415 | every step keeps at most one owner per buffer and exactly one place per frame |
| `FrameQueue.StepKeepsBounds` | flux-web/upstream.go:351-400 | every step keeps the queue within 120 and the pool within 4, room for the sender that made it, and a drained queue empty |
| `FrameQueue.OneOwner` | flux-web/upstream.go:78-120 | in every state of every run a backing array has at most one owner and a frame was released at most once |
| `FrameQueue.SendNeverBlocks` | flux-web/upstream.go:379-400 | the final send of `queueFrame` never blocks, whatever the pusher received in between |
| `FrameQueue.DrainedStays` | flux-web/upstream.go:351-375 | once drained by `stop` the queue stays empty |
| `FrameQueue.AllReleased` | flux-web/frame.go:15-21 | after that, with none in hand, every frame ever read was released exactly once |
| `FrameQueue.EnqueueHandsOver` | flux-web/upstream.go:379-400 | an undisturbed `queueFrame` always gives its frame up, to the end of the queue or when stopping to the pool, and releases one other at most |
| `FrameQueue.SkipsKeepLatest` | flux-web/upstream.go:288-307 | an undisturbed skip empties the queue and leaves the selected frame in hand |
| `FrameQueue.SkipsReleaseOthers` | flux-web/upstream.go:288-307 | and releases every other frame to the pool |
| `Pusher.TurnReleases` | flux-web/upstream.go:891-957 | an undisturbed turn of the pusher releases exactly the frames it takes from the queue, each once, and leaves none of them in hand |
| `Pusher.LosersAndLatest` | flux-web/upstream.go:288-307 | the frame kept and the frames given up are the ones there were |
| `Pusher.DeltaFollowsKeyframe` | flux-web/upstream.go:899-952 | when a delta is written, every turn since some keyframe, or since the session began if none was asked for, has written its frame in full and lost none |
| `Pusher.FirstFrame` | flux-web/webtransport.go:255-268 | the first frame of a session is written if and only if it is a keyframe or none was asked for in time |
| `Upstream.FrameBufferPool.Get` | flux-web/upstream.go:84-108 | the in-place swap-removal is the specified pool operation |
| `Upstream.FrameBufferPool.Put` | flux-web/upstream.go:110-119 | caches the buffer unless it is empty, too large or the pool is full |
| `Upstream.MachineUpstream.ReadPayload` | flux-web/upstream.go:402-415 | is the state machine's read; a failed one gives the buffer back |
| `Upstream.MachineUpstream.ReleaseFrame` | flux-web/frame.go:15-21 | is the state machine's release |
| `Upstream.MachineUpstream.Receive` | flux-web/upstream.go:891-894 | is the state machine's receive by the pusher |
| `Upstream.MachineUpstream.TrySend` | flux-web/upstream.go:387-389 | sends exactly when the queue has room |
| `Upstream.MachineUpstream.MakeRoom` | flux-web/upstream.go:390-396 | releases the oldest frame if there is one, so that there is room |
| `Upstream.MachineUpstream.QueueFrame` | flux-web/upstream.go:379-400 | undisturbed, is the state machine's offer, try, eviction and send, and reports an eviction exactly when the queue was full |
| `Upstream.MachineUpstream.Stop` | flux-web/upstream.go:351-375 | is the state machine's stop and draining turns, and leaves the queue empty |
| `Upstream.MachineUpstream.LatestFrame` | flux-web/upstream.go:288-307 | the draining loop is the state machine's skipping turns and makes the specified selection |
| `Upstream.MachineUpstream.NextFrame` | flux-web/upstream.go:313-318 | skips ahead exactly when frames are queued and the one in hand waited over 150 ms |
| `Upstream.MachineUpstream.PickFrame` | flux-web/upstream.go:891-894 | receiving and skipping ahead leave the chosen frame in hand |
| `Upstream.MachineUpstream.PushFrame` | flux-web/upstream.go:891-957 | without a session, skipped until a keyframe, or written with any result, a turn is the specified one and gives its frame back |
| `Upstream.ViewerSession.Admit` | flux-web/upstream.go:900-925 | a frame is written exactly when it is a keyframe or none is needed, and a keyframe settles the need |
| `Upstream.ViewerSession.Visit` | flux-web/upstream.go:899-956 | both together are the specified turn of a session |
| `Upstream.ViewerSession.NoteResult` | flux-web/upstream.go:948-956 | a write that failed or was abandoned makes a keyframe necessary |
| `HostLink.SignalKeeps` | flux-web/hostlink.go:122-134 | a signal never closes a channel twice, wakes its own waiters and touches no other identifier |
| `HostLink.StepKeeps` | flux-web/hostlink.go:39-134 | every step keeps the gauge, the channels, the waiters and the balance of arrivals and departures |
| `HostLink.GaugeIsExact` | flux-web/hostlink.go:39-120 | under every interleaving the gauge is the number of parked links |
| `HostLink.NoLostWakeUp` | flux-web/hostlink.go:81-134 | while a link is parked nobody waits for its identifier on an open channel |
| `HostLink.HandedOutOnce` | flux-web/hostlink.go:39-120 | each parking ends by exactly one route, so a connection is handed out at most once per parking |
| `HostLink.ParkedIsThere` | flux-web/hostlink.go:39-63 | a parked connection is the one that is there, no other link changes, and all waiters for it can wake |
| `HostLink.NextCallerTakes` | flux-web/hostlink.go:81-120 | the next caller takes it out, alive or found dead; with nothing parked the caller waits |
| `HostLink.EndedLinkGoes` | flux-web/hostlink.go:52-63 | when a connection ends its link goes if and only if it is still the one parked |
| `HostLink.HostLinkHub.SignalAll` | flux-web/hostlink.go:129-134 | closes an open channel and installs a new one |
| `HostLink.HostLinkHub.Park` | flux-web/hostlink.go:39-51 | is the specified step and returns the connection it replaced, if another |
| `HostLink.HostLinkHub.OnConnectionDone` | flux-web/hostlink.go:52-63 | drops the link only if this connection is still the parked one |
| `HostLink.HostLinkHub.RemoveLink` | flux-web/hostlink.go:67-79 | is the specified step and returns the link it removed |
| `HostLink.HostLinkHub.TryTake` | flux-web/hostlink.go:81-120 | one turn hands out a live connection, drops a dead one or yields the channel to wait on |
| `Pacer.CapturePacer.TimeUntilDue` | flux/crates/flux-capture/src/pacing.rs:27-35 | the wait is the least after which a frame is due |
| `Pacer.CapturePacer.MarkDelivered` | flux/crates/flux-capture/src/pacing.rs:37-44 | sets the specified next due time |
| `Pacer.NeverAhead` | flux/crates/flux-capture/src/pacing.rs:16-44 | the n-th delivery after the first comes at most a tenth of an interval before its place on the grid |
| `Pacer.NoBurst` | flux/crates/flux-capture/src/pacing.rs:16-44 | any n+1 consecutive deliveries span at least (n-1) intervals plus a half less a tenth |
| `Pacer.GridKept` | flux/crates/flux-capture/src/pacing.rs:37-44 | the exact lateness up to which one delivery leaves the grid alone |
| `Pacer.GridIsExact` | flux/crates/flux-capture/src/pacing.rs:37-44 | lateness of up to half an interval never accumulates over a run |
| `Pacer.NeverBehind` | flux/crates/flux-capture/src/pacing.rs:37-44 | whatever stalls there were, after each delivery a frame is due again within eleven tenths of an interval |
| `Pacer.EagerIsPaced` | flux/crates/flux-capture/src/pacing.rs:16-44 | delivering as soon as due meets the bound of `NeverAhead` at every delivery, so it is tight |
| `AudioFramer.CutLosesNothing` | flux/crates/flux-audio/src/framer.rs:37-70 | frames followed by what is pending are the input |
| `AudioFramer.CutIsExact` | flux/crates/flux-audio/src/framer.rs:37-70 | every frame has the exact length and what is pending is shorter |
| `AudioFramer.SplitDoesNotMatter` | flux/crates/flux-audio/src/framer.rs:37-70 | over any run the frames do not depend on how the input was split into pushes |
| `AudioFramer.TimesAreEven` | flux/crates/flux-audio/src/framer.rs:37-70 | samples of one instant share a time and instants are one sample period apart |
| `AudioFramer.Framer.Push` | flux/crates/flux-audio/src/framer.rs:37-70 | the loop emits those frames, numbered on, each stamped with the capture time of its first sample |
| `AudioRing.FeedKeeps` | flux-web/ui/public/audio-worklet.js:40-54 | after a push the buffer holds the newest samples, at most 200 ms, and every sample is accounted for |
| `AudioRing.QuantumKeeps` | flux-web/ui/public/audio-worklet.js:56-82 | playing keeps the same |
| `AudioRing.PlaysInOrder` | flux-web/ui/public/audio-worklet.js:56-82 | over every run a quantum plays exactly the samples that follow all those played or dropped before |
| `AudioRing.PushKeepsUpToHighWater` | flux-web/ui/public/audio-worklet.js:40-54 | up to 200 ms everything pushed is kept, beyond that exactly the newest 60 ms |
| `AudioRing.QuantumPlays` | flux-web/ui/public/audio-worklet.js:56-82 | silence until 40 ms are buffered, then full quanta; only a quantum that runs short is an underrun and starts over |
| `AudioRing.PlaysOn` | flux-web/ui/public/audio-worklet.js:56-82 | a playing sink goes on without a gap through all it holds |
| `AudioRing.Conservation` | flux-web/ui/public/audio-worklet.js:36-82 | with pushes that always fit: pushed = played + dropped + buffered |
| `AudioRing.DroppedIsExact` | flux-web/ui/public/audio-worklet.js:40-54 | the drop counter accounts for a push exactly when the ring could hold it |
| `AudioRing.OverwrittenIsNotCounted` | flux-web/ui/public/audio-worklet.js:40-54 | a push of 48,000 samples of which one is neither counted nor kept |
| `AudioSink.FluxAudioSink.Buffered` | flux-web/ui/public/audio-worklet.js:36-38 | the index difference is the number of samples held |
| `AudioSink.FluxAudioSink.Reset` | flux-web/ui/public/audio-worklet.js:27-29 | empties the ring and primes again, keeping the counters |
| `AudioSink.SilenceAround` | flux-web/ui/public/audio-worklet.js:56-82 | an output that was silent holds the played samples, or nothing when muted, and silence |
| `AudioSink.FluxAudioSink.Push` | flux-web/ui/public/audio-worklet.js:40-54 | the ring after a push is the old contents and the new samples, cut to the newest 60 ms exactly when over 200 ms |
| `AudioSink.FluxAudioSink.Process` | flux-web/ui/public/audio-worklet.js:56-82 | the output holds a prefix of the contents, or what was there when muted, and then silence; an underrun empties the ring and primes again |

## Left out

- Network, TLS, QUIC, WebTransport, D-Bus, PipeWire, SQLite, JSON, Prometheus and DRM/DXGI calls: only their effect appears, as steps, maps or sizes.
- React components, HTTP routing, sign-in, configuration and platform detection: plumbing.
- Floating-point rounding: the estimator's factors, averages and thresholds are exact rationals.
- Failing store writes and the hourly retention purge of the audit tables; expiry at a batch and at a reload is modelled.
- The waiting times of the forwarding loop's backoff; retries may come at any time.
- HTTP body limits of the ingest route; a batch rejected for any reason is a step of the protocol.
- Scale.DownscaleFrame: when every check has passed and the filter runs, the source is taken to be at least 2x2, because the code's index arithmetic underflows below that; the SSE2 kernel is modelled only in its lane arithmetic.
- The I420 and pass-through paths of NV12 conversion, and the codec string built from a parameter set.
- In-place reuse of a slice's own backing array while filtering it (the send order in the estimator, the forwarder's queue): filtered lists are values here.
- Payloads of audio and cursor messages, which never use the buffer pool.
- Whether frames sent by the relay after an eviction from the queue can be decoded: an eviction only asks for a keyframe and does not hold back the deltas behind it.
- Turns of the pusher that other goroutines interrupt are runs of the single steps; the statements about a whole turn are for one that runs undisturbed.
- The queue row's time is the event's own, cut to seconds; the code reads the clock once more for it.
- HostLink.HostLinkHub.TryTake: is one turn of the loop in `take`; waiting and waking are steps of the state machine.
- Frames of an older stream that arrive after a newer keyframe: they come too late and are counted, which is all that is said of them.
- BweControl.RunInRange: holds from the first ceiling on; before it the code accepts any initial target.
- Periodic statistics messages of the audio sink, output channels beyond the second, and the relay's logging and metrics apart from the gauges and counters named above.
- flux-client, GPU colour conversion and the display driver.
