# Verified models of the Omni audio and logging core

Dafny models of four parts of the system, with proofs of the properties they exist for.

**Logging** (`Log*.dfy`). Producers share a bounded channel with one writer thread that owns
the log file, rotates N generations, and answers flushes and evidence receipts; exporters read
the directory under a cross-process lock. `LogProtocol` is a step system in which each I/O call
of the writer is a step that may fail, interleaved freely with producers, external appenders and
exporters. `LogWriter` is the imperative writer, a class whose every method is proved to be a
legal continuation of a run, so everything proved of runs holds of it. Names and files are kept
apart, as the operating system does: a handle follows its file through a rename. The three
generations of the program are any number here.

**Measurement** (`LeastSquares`, `Correlation`, `Aec*`, `Canonical*`, `BestFirst`, `TopList`,
`Cue*`, `ExactCopies`, `LagSearch*`, `Resampling`). Two-reference least squares, the fail-closed echo-cancellation verdict, the
canonical waveform search and the search for a translated cue, in exact real arithmetic.

**Kernel audio ring** (`AudioRing*`). The overwrite-oldest ring over a byte array with 32-bit
offsets, proved equal to a bounded sequence.

**Realtime path** (`FramePacing*`, `FrameValidation`, `PcmCodec`, `Resampling`). The drop-oldest
queue driven by a media clock, the validation of translation frames, and the PCM codec.

## Where the code differs from what it promises

- A receipt confirms an id when the batch was synced and the record written. That fails to make
  the record durable in two ways. A failed `write_all` drops the handle unsynced, and a sync without
  a handle reports success, so lines written before can be confirmed unsynced. And a batch that
  fills more than N generations deletes its own first lines and confirms them all the same.
  `LogReceiptRuns` has a run for each, the second without any failure. `LogReceipts` proves for
  every id exactly when the receipt keeps its promise, and that what a batch without a failed write
  confirmed stays in the directory until N x max_bytes bytes have been appended from it on.
  `LogCrash` extends that over losses of power, asking that each restart finds full, contiguous
  generations, and `LogRestart` shows that it does after a life without a failed write that is not
  cut short in the middle of a shift: a crash between two renames leaves the same gap as a failed
  rename, and one that cuts a file retired unsynced leaves a generation that is not full.
- The retention of N x max_bytes bytes survives every failure except a rename that fails below an
  occupied slot other than the oldest: the next rotation then deletes the oldest generation although
  a younger one is missing (`LogRetentionGap`).
- The canonical analysis panics for sample rates below 20 (a step of zero); it is total from 20 on.
- The cue search can report that no complete window exists although one does: its shortlist
  fills up with lags that pass the shorter prefilter window. `LagSearchCoverage` gives PCM for
  which it does, and the exact condition on lengths, expected start and radius under which no PCM
  can make it.
- In the rendering to 16 kHz the clamp of the right neighbour is needed exactly when the 48 kHz
  bridge has one sample, that is for less than two frames of 48 kHz; all other clamps of both resamplers are dead.

## Model

| member | source | states |
|---|---|---|
| LogStore.AppendExtendsRetained | crates/omni-logging/src/pipeline.rs:272-276 | a write through a handle on the active path extends the retained log (all generations, oldest first) at its end and touches no rotated generation |
| LogStore.ExternalAppendExtendsRetained | crates/omni-logging/src/pipeline.rs:289-297 | another process appending to the active path does the same, also when the file has to be created |
| LogStore.OpenKeepsRetained | crates/omni-logging/src/pipeline.rs:289-303 | opening or creating the active file changes no content |
| LogStore.SyncKeepsRetained | crates/omni-logging/src/pipeline.rs:334-341 | a sync changes no content and no name |
| LogStore.RenameKeepsOlder | crates/omni-logging/src/pipeline.rs:353-355 | renaming a rotated generation into the free slot above keeps the concatenation of the rotated generations |
| LogStore.RenameActiveKeepsRetained | crates/omni-logging/src/pipeline.rs:353-355 | renaming the active file to generation 1 moves its bytes to the end of the rotated ones |
| LogStore.RenameKeepsRetained | crates/omni-logging/src/pipeline.rs:345-355 | every rename of the shift, at any slot, leaves the retained log byte for byte the same |
| LogStore.RemoveOldestCutsPrefix | crates/omni-logging/src/pipeline.rs:350-352 | deleting generation N cuts exactly its bytes from the front |
| LogStoreInvariant.StoreStep | crates/omni-logging/src/pipeline.rs:255-359 | every step of producers, writer, appenders and exporters, succeeding or failing, keeps: names injective, handle on the active file, lock held exactly while rotating, only the oldest slot occupied when the shift reaches it, approx_len at most the true length, retained log a suffix of all bytes ever appended |
| LogStoreInvariant.StoreAlways | crates/omni-logging/src/pipeline.rs:255-359 | that holds at every state of every run from any directory left by earlier runs |
| LogRotation.OnlyTheOldestIsEverCut | crates/omni-logging/src/pipeline.rs:343-359 | in every reachable situation a step extends the retained log by exactly the bytes it appended, except the one that deletes generation N, taken only when N-1 exists, which cuts exactly N |
| LogRotation.ShiftLosesAtMostTheOldest | crates/omni-logging/src/pipeline.rs:343-359 | from the start of a shift to any later moment of it, success and every failing remove or rename included and with appends in between, the concatenation loses nothing or exactly generation N |
| LogRotation.KeepsRetained | crates/omni-logging/src/pipeline.rs:308-359 | any other step of the writer, failed ones included, leaves the retained log unchanged |
| LogRotation.NamesChangeOnlyUnderTheLock | crates/omni-logging/src/directory_lock.rs:15-26 | while the writer does not hold the directory lock no name of a generation is rebound or removed |
| LogSnapshot.RotatedGenerationsFrozen | crates/omni-logging/src/pipeline.rs:308-317 | while an exporter holds the lock no step changes any rotated generation |
| LogSnapshot.LockStaysWithExporter | crates/omni-logging/src/directory_lock.rs:9-26 | no step of the writer or of another process takes the lock from the exporter holding it |
| LogSnapshot.InstantWasRead | crates/omni-logging/src/directory_lock.rs:15-20 | the instant of a capture is the state in which the active file was read, inside the same tenure of the lock |
| LogSnapshot.CaptureIsOneInstant | crates/omni-logging/src/directory_lock.rs:15-26 | reading all generations under the lock in any order, with appends and failed rotations in between, assembles to the retained log of one instant: an unbroken suffix of everything appended by then |
| LogRetention.DeletingLeavesEnough | crates/omni-logging/src/pipeline.rs:345-352 | when generation N is deleted, every younger one and the active file exist and hold at least max_bytes each, so together at least the quota |
| LogRetention.RetentionStep | crates/omni-logging/src/pipeline.rs:255-359 | contiguous generations below the oldest slot, full rotated ones and the quota survive every step, failed removes and most failed renames included; only a failed rename that leaves a slot empty below an occupied one (not the oldest) is excluded |
| LogRetention.RecentBytesAreOnDisk | crates/omni-logging/src/pipeline.rs:255-332 | until a failed rename leaves such a gap, the last min(total, N x max_bytes) bytes ever appended are on disk at every instant, mid-rotation included, whatever locks, syncs, stats, removes, opens, writes and other renames fail and whatever others append |
| LogRetentionGap.GapCostsBytes | crates/omni-logging/src/pipeline.rs:345-355 | a concrete run with N = 3: the rename of the active file fails once, and the next rotation deletes generation 3 although slot 1 is empty, leaving 10 of the 12 bytes promised |
| LogLedger.WorkStep | crates/omni-logging/src/pipeline.rs:219-283 | every step keeps: commands received, flattened, are the resolved records followed by those in hand, and errors are failed lines plus rotation errors plus refused submissions |
| LogLedger.PlacedStep | crates/omni-logging/src/pipeline.rs:255-283 | every step keeps each written line whole in the log and after every line written before it |
| LogLedger.EverySubmissionIsAccountedFor | crates/omni-logging/src/pipeline.rs:110-123 | over every run: queue within capacity, accepted = resolved + in hand + queued in FIFO order, each submission accepted, dropped and counted once, or refused and counted once, each failed line one counted write error |
| LogFailures.EachFailureIsCountedOnce | crates/omni-logging/src/pipeline.rs:255-341 | over every run the error count is the failed lines, the failed locks, syncs, removes and renames of rotations, the failed syncs of batches, each once, and the submissions refused for want of a writer |
| LogFailures.SubmissionIsTakenExactlyWhen | crates/omni-logging/src/pipeline.rs:110-123 | a submission is taken exactly if there is a writer and room (at capacity 0: a writer that waits), dropped and counted exactly without room, refused and counted exactly without a writer |
| LogLength.LengthAlways | crates/omni-logging/src/pipeline.rs:255-306 | in every run, with a handle open, the active file is as long as approx_len plus what others appended since the writer last read the length plus what it could not measure at the open |
| LogLength.DueLookDecides | crates/omni-logging/src/pipeline.rs:255-264 | a due and answered stat with an open handle leads to rotation if and only if the file, the bytes of others included, has reached max_bytes, and leaves approx_len exact |
| LogLength.LinesSinceLook | crates/omni-logging/src/pipeline.rs:255-304 | lines_since_stat counts exactly the lines written whole since the last due stat, open or rotation |
| LogLength.LooksEvery128Lines | crates/omni-logging/src/pipeline.rs:255-282 | and at most 128 lines are written whole without such a look |
| LogLength.ActiveFileIsBounded | crates/omni-logging/src/pipeline.rs:255-332 | while no lock, sync, remove, rename or measurement at an open fails: an open handle is appended to only below max_bytes but for bytes not yet seen, and the active file never exceeds max_bytes (or the length found at start) by more than two lines and what others appended to it |
| LogLedger.FlushedMeansResolved | crates/omni-logging/src/pipeline.rs:125-134 | an acknowledged flush means every record accepted before it has its outcome in order and the written ones are in the log, then and ever after |
| LogEvidence.EvidenceStep | crates/omni-logging/src/pipeline.rs:233-241 | every step keeps the exposure (lines held by the open handle, loose in the active file, stranded in a rotated one) equal to the set of unsynced written lines, each in the file its list says |
| LogEvidence.EvidenceAlways | crates/omni-logging/src/pipeline.rs:255-340 | that holds in every run; a line is left behind only by a later failed write_all; confirmed ids are exactly those of the written records |
| LogEvidence.EveryStepGrows | crates/omni-logging/src/pipeline.rs:255-359 | no step shortens a file, rewrites its bytes or takes back a sync, and outcomes are only appended; a deleted file only loses its name here, and without one it counts for nothing below |
| LogLocation.NamedExactlyWhen | crates/omni-logging/src/pipeline.rs:343-359 | a located line is in some generation if and only if it starts no further from the end of the log than the retained bytes reach |
| LogLocation.LocatedStep | crates/omni-logging/src/pipeline.rs:255-359 | every step keeps, for any line: in generation i it starts exactly |generations i..0| - offset bytes before the end of the log, in no generation wholly before the retained bytes, the distance growing with the log; appends, renames, deletions and failures alike |
| LogLocation.LinesAreAtTheirPlaces | crates/omni-logging/src/pipeline.rs:255-359 | over every run each written line is, through all renames and deletions, where its position in the log of all bytes says |
| LogLocation.LineIsDurableExactlyWhen | crates/omni-logging/src/pipeline.rs:233-359 | at every moment of every run a written line is in the directory and synced there if and only if it is not one of the unsynced lines and starts no further back than what is retained |
| LogReceipts.LineIsSyncedExactlyWhen | crates/omni-logging/src/pipeline.rs:233-241 | when a batch is answered synced, a written line has been synced in its file if and only if it was not left behind by a failed write_all, still loose in the active file or stranded in a rotated one |
| LogReceipts.AnsweredLineIsDurableExactlyWhen | crates/omni-logging/src/pipeline.rs:233-241 | and it is in the directory, synced, if and only if besides it has not been deleted with its generation, by an earlier rotation or one of this batch |
| LogReceipts.SyncedReceiptIsRightExactlyWhen | crates/omni-logging/src/pipeline.rs:233-241 | hence every written line of the batch is durable if and only if none was left behind and none deleted |
| LogReceipts.ReceiptKeepsPromiseExactlyWhen | crates/omni-logging/src/pipeline.rs:60-69 | for any id, however often it occurs: after a synced answer a record of the batch with that id is in the directory and synced there if and only if some written record with that id was neither left behind nor deleted |
| LogReceipts.UnexposedWithoutWriteFailure | crates/omni-logging/src/pipeline.rs:275-280 | without a failed write_all in the batch no line of it is left behind |
| LogReceipts.SyncedStays | crates/omni-logging/src/pipeline.rs:334-359 | what is synced in its file stays so through later writes, rotations and failures, whether or not the file keeps a name |
| LogReceipts.ConfirmedEvidenceIsDurable | crates/omni-logging/src/pipeline.rs:60-69 | for a batch without a failed write_all, a receipt that confirms an id: some written record of the batch has it, and each one, at every later state, is synced in its file, in the directory exactly as long as the retained bytes reach back to it, and so at least until N x max_bytes bytes have been appended from its start on, if the run started on full contiguous generations and no failed rename left a gap |
| LogReceiptRuns.ReceiptCanBeWrong | crates/omni-logging/src/pipeline.rs:334-341 | a concrete run of two records: the write of the second fails and the receipt confirms the first, of which nothing was synced |
| LogReceiptRuns.ReceiptCanConfirmDeleted | crates/omni-logging/src/pipeline.rs:233-241 | a concrete run with N = 1 in which nothing fails and nothing is left behind: the batch rotates twice, and the receipt confirms a record that is in no generation any more |
| LogCrash.DurableExactlyWhenSafe | crates/omni-logging/src/pipeline.rs:334-341 | a line in the directory is durable if and only if it is still there whole after every crash, which may cut each file back to what was synced |
| LogCrash.SyncedSurvives | crates/omni-logging/src/pipeline.rs:255-359 | what is synced in its file at some moment is so at every later moment, over any number of crashes and restarts |
| LogCrash.NamedSurvives | crates/omni-logging/src/pipeline.rs:255-359 | a synced line stays in the directory, over any number of crashes and restarts, as long as no more than N x max_bytes bytes have been appended from its start on, each life finding full contiguous generations and no failed rename leaving a gap |
| LogCrash.ConfirmedEvidenceSurvives | crates/omni-logging/src/pipeline.rs:60-69 | evidence confirmed for a batch without a failed write_all stays synced in its file however often the power fails, and in the directory for as long as NamedSurvives says |
| LogRestart.SettledStep | crates/omni-logging/src/pipeline.rs:255-341 | every step but a failed write_all keeps: each rotated generation has been synced up to max_bytes, the active file has when the shift reaches it, and a writer without a handle believes the file empty |
| LogRestart.CleanRestart | crates/omni-logging/src/pipeline.rs:308-359 | a life without a failed write or a gap, cut short outside a shift, leaves full synced contiguous generations whatever unsynced tails the crash takes |
| LogRestart.CleanLivesAreWellKept | crates/omni-logging/src/pipeline.rs:308-359 | hence lives that end so, under the same positive limits, meet the condition of NamedSurvives |
| LogRestart.ConfirmedEvidenceLasts | crates/omni-logging/src/pipeline.rs:60-69 | so over such lives, crashes included, evidence confirmed for a batch without a failed write_all is in the directory and synced there until N x max_bytes bytes have been appended from its start on |
| LogCrash.WrongReceiptCanLoseEvidence | crates/omni-logging/src/pipeline.rs:334-341 | in the concrete run with the wrong receipt a crash takes the confirmed line |
| LogWriter.Surroundings.Perform | crates/omni-logging/src/pipeline.rs:219-224 | one I/O call of the writer, after any number of steps of others, is a legal continuation of the run |
| LogWriter.Surroundings.LockDirectory | crates/omni-logging/src/directory_lock.rs:21-26 | the writer gets the lock only when no exporter holds it; a failed lock leaves the rotation undone and counted |
| LogWriter.Writer.SyncOpenGeneration | crates/omni-logging/src/pipeline.rs:334-341 | true without an open handle, the outcome of the sync otherwise; for a rotation and for a receipt |
| LogWriter.Writer.ShiftSlot | crates/omni-logging/src/pipeline.rs:346-356 | one turn of the shift: the slot receives the generation below if it exists, after the target was cleared |
| LogWriter.Writer.RotateLogFiles | crates/omni-logging/src/pipeline.rs:343-359 | for any N and any generations present: on success each i < N holds old i-1, N holds old N-1 if that existed and its own file otherwise, nothing else is renamed; on success and on every early error the lock is still held and the concatenation lost nothing or exactly generation N |
| LogWriter.Writer.Rotate | crates/omni-logging/src/pipeline.rs:308-332 | rotation under the lock keeps the current record and ends ready to open, whichever of lock, sync or shift fails |
| LogWriter.Writer.OpenHandle | crates/omni-logging/src/pipeline.rs:285-306 | success leaves an open handle; failure resolves the record as failed and the error count grows |
| LogWriter.Writer.RefreshLength | crates/omni-logging/src/pipeline.rs:255-264 | a due stat that is answered makes approx_len the length of the active file, any other leaves it alone; lines are counted anew when due; then the limit decides between rotating and opening |
| LogWriter.Writer.Append | crates/omni-logging/src/pipeline.rs:272-282 | whole line: written, handle kept, length and lines since the last stat grown; torn: handle dropped and the error count grows |
| LogWriter.Writer.WriteLine | crates/omni-logging/src/pipeline.rs:255-283 | one call resolves exactly the first record in hand, and returns true exactly if it was written whole |
| LogWriter.Writer.PersistEvidence | crates/omni-logging/src/pipeline.rs:233-241 | every record of the batch gets one outcome, in order, and exactly one answer is sent, the receipt returned |
| LogWriter.Writer.Run | crates/omni-logging/src/pipeline.rs:219-249 | the whole loop over commands is a legal run of the step system, so all invariants above hold of it |
| AudioRing.RingBuffer.Initialize | drivers/windows-virtual-mic/include/omni_ring_core.h:34-45 | a ring with any offsets in the storage starts empty with all counters zero |
| AudioRing.RingBuffer.Reset | drivers/windows-virtual-mic/include/omni_ring_core.h:47-52 | forgets the contents |
| AudioRing.RingBuffer.MakeRoom | drivers/windows-virtual-mic/include/omni_ring_core.h:65-83 | after the two guards, what is held plus what is still to copy is the newest max_buffered bytes of old contents and data, and every byte given up is counted |
| AudioRing.RingBuffer.CopyIn | drivers/windows-virtual-mic/include/omni_ring_core.h:85-93 | the copy loop appends its data through the wrap-around in at most two turns |
| AudioRing.RingBuffer.Write | drivers/windows-virtual-mic/include/omni_ring_core.h:61-94 | contents become the last max_buffered bytes of contents ++ data; dropped grows by exactly what is lost; at most two copies |
| AudioRing.RingBuffer.CopyAll | drivers/windows-virtual-mic/include/omni_ring_core.h:102-109 | the read loop hands out the oldest bytes through the wrap-around in at most two turns |
| AudioRing.RingBuffer.Read | drivers/windows-virtual-mic/include/omni_ring_core.h:96-113 | returns and removes the first min(n, buffered) bytes, leaves the rest of the caller buffer alone, counts them as delivered |
| AudioRing.WindowExtend | drivers/windows-virtual-mic/include/omni_ring_core.h:86-93 | writing at (read + buffered) mod capacity appends to the logical contents and disturbs none of them |
| AudioRing.NewestOfBoth | drivers/windows-virtual-mic/include/omni_ring_core.h:69-83 | skipping the excess of the data and dropping the oldest held bytes together keep exactly the newest bytes |
| AudioRingRuns.RunKeepsAccounts | drivers/windows-virtual-mic/include/omni_ring_core.h:47-113 | over every run: written = delivered + dropped + buffered + discarded by resets, and the ring holds the end of the stream since the last reset |
| AudioRingRuns.ReadIsAStretchOfTheStream | drivers/windows-virtual-mic/include/omni_ring_core.h:98-113 | every read returns the contiguous stretch of the stream that ends where the bytes still held begin |
| AudioRingRuns.WritesMayBeCut | drivers/windows-virtual-mic/include/omni_ring_core.h:65-94 | two writes and one write of both leave the same contents and counts |
| AudioRingRuns.Drive | drivers/windows-virtual-mic/include/omni_ring_core.h:47-113 | the array implementation, driven through any operations, is in the state the sequence model predicts and hands out exactly the bytes it predicts |
| FramePacing.AudioFrameQueue.Push | apps/bridge-service-native/src/lib.rs:582-592 | a full queue loses its oldest frame, a queue of capacity 0 the new one; counted |
| FramePacing.AudioFrameQueue.Pop | apps/bridge-service-native/src/lib.rs:594-600 | oldest frame, or an underrun |
| FramePacing.AudioFramePacer.Push | apps/bridge-service-native/src/lib.rs:643-648 | queues the frame and starts the clock if it is not running |
| FramePacing.AudioFramePacer.Poll | apps/bridge-service-native/src/lib.rs:650-668 | releases one frame if its slot has come; the next slot is one interval after the last slot, not after now; an empty queue stops the clock |
| FramePacing.AudioFramePacer.Clear | apps/bridge-service-native/src/lib.rs:670-673 | empties the queue and stops the clock |
| FramePacingRuns.FramesAreConserved | apps/bridge-service-native/src/lib.rs:564-690 | over every run: pushes = released + dropped + queued + cleared, released frames are in push order, the queue is the newest frames pushed since the last clear |
| FramePacingRuns.ClockNeverDrifts | apps/bridge-service-native/src/lib.rs:627-690 | there is a deadline exactly if something was pushed since the start, the last clear and the last underrun; with A the time of the first such push and j releases since, it is A + j x interval however late the polls were, and the j-th frame left no earlier than its own slot |
| FramePacingRuns.RateIsBounded | apps/bridge-service-native/src/lib.rs:650-668 | at most (t - A) / interval + 1 frames leave between the anchor and t |
| FramePacingRuns.ClearStartsAnew | apps/bridge-service-native/src/lib.rs:650-673 | after a clear nothing is queued and no clock runs; of the frames pushed since, the first at A, at most (t - A) / interval + 1 leave by t and none before A, over any underruns and non-decreasing times; no frame of before the clear leaves |
| FramePacingRuns.DrainReleasesDueFrames | apps/bridge-service-native/src/lib.rs:650-668 | polling repeatedly at t releases exactly min(queued, (t - deadline) / interval + 1) frames, oldest first |
| FramePacingRuns.EarlyPollIsNoOp | apps/bridge-service-native/src/lib.rs:650-655 | a poll changes nothing and gives nothing exactly when there is no clock or it is early |
| FramePacingRuns.Drive | apps/bridge-service-native/src/lib.rs:564-690 | a pacer object, driven through any events, ends in the state the replay predicts and releases exactly its releases |
| PcmCodec.EncodePcm16Le | crates/omni-bridge-protocol/src/lib.rs:492-498 | the loop computes the pairwise little-endian encoding, which decodes to the samples |
| PcmCodec.DecodeEncoded | crates/omni-bridge-protocol/src/lib.rs:481-498 | decode after encode is the identity for all 16-bit samples |
| PcmCodec.EncodeDecoded | crates/omni-bridge-protocol/src/lib.rs:481-498 | decoding fails exactly on odd lengths; otherwise encode after decode is the identity |
| PcmCodec.LowByteFirst | crates/omni-bridge-protocol/src/lib.rs:492-498 | the two bytes of a sample are its residue modulo 65536, low byte first |
| PcmCodec.DecodedAt | crates/omni-bridge-protocol/src/lib.rs:481-490 | sample k is, modulo 65536, byte 2k plus 256 times byte 2k + 1 |
| FrameValidation.AcceptedExactlyWhenWellFormed | apps/bridge-service-native/src/lib.rs:502-562 | a frame is accepted if and only if session, type, chunk or stream identity and checked length agree; its samples are frames x channels many and re-encode to the payload |
| FrameValidation.RejectionEchoesAuthority | crates/omni-bridge-protocol/src/lib.rs:456-479 | a rejection is a nack that carries each field of the authority, accepts and plays no frames, and names the first requirement missed with its code; the odd-length error is a dead branch |
| FrameValidation.AcceptanceCarriesAuthority | crates/omni-bridge-protocol/src/lib.rs:432-454 | an acceptance is an ack that carries each field of the authority and all frames, without an error |
| FrameValidation.ExpectedBytesIs | apps/bridge-service-native/src/lib.rs:546-552 | the two checked multiplications fail only on products no payload can have |
| Resampling.NormalizeTrack | apps/bridge-service-native/src/lib.rs:770-792 | the output holds, for each 48 kHz frame, the source frame playing at its instant; no index needs its clamp; empty or zero-rate tracks give nothing |
| Resampling.StereoIs | apps/bridge-service-native/src/lib.rs:794-813 | frame k keeps its first two channels, left first, each times 32767 the sample; one channel is doubled |
| Resampling.HeldFrameExists | apps/bridge-service-native/src/lib.rs:778-788 | where the loop runs the held frame exists and the product of frame and rate does not saturate |
| Resampling.HoldClampIsDead | crates/omni-benchmark-core/src/pcm.rs:498-501 | the clamp of the hold to 48 kHz never bites |
| Resampling.NeighbourClamps | crates/omni-benchmark-core/src/pcm.rs:505-506 | the clamp of the left neighbour never bites; that of the right one does exactly for a bridge of one sample |
| Resampling.RightClampBitesExactlyWhen | crates/omni-benchmark-core/src/pcm.rs:497-506 | in terms of the track: exactly if frames x 48000 < 2 x rate, as for one frame at 48 kHz |
| Resampling.OneFrameIsClamped | crates/omni-benchmark-core/src/pcm.rs:497-506 | one frame at 48 kHz gives a bridge and an output of one sample |
| Resampling.DirectLength | crates/omni-benchmark-core/src/pcm.rs:497-502 | the two lengths compose to max(1, 16000 n / rate) |
| Resampling.RenderingIsDirect | crates/omni-benchmark-core/src/pcm.rs:488-509 | rendering through 48 kHz equals one direct hold: sample i is mono frame floor(i x rate / 16000), for every rate, length and channel count; errors exactly on bad shapes and empty input |
| Resampling.MonoIs | crates/omni-benchmark-core/src/pcm.rs:492-494 | mono frame k times the channel count is the sum over interleaved frame k of its samples as parts of 32768 |
| LeastSquares.GainsSolve | crates/omni-benchmark-core/src/aec.rs:50-56 | for non-zero determinant the gains satisfy both normal equations |
| LeastSquares.GainsAreOptimal | crates/omni-benchmark-core/src/aec.rs:50-56 | their residual is at most that of every other pair of real gains |
| LeastSquares.GainsRecoverMixture | crates/omni-benchmark-core/src/aec.rs:50-56 | from y = alpha s + beta e they return exactly (alpha, beta, 0) |
| LeastSquares.NormalEquationsMinimise | crates/omni-benchmark-core/src/aec.rs:50-56 | any solution of the normal equations minimises the residual |
| LeastSquares.DeterminantNonNegative | crates/omni-benchmark-core/src/aec.rs:91-96 | the determinant tested for identifiability is never negative (Cauchy and Schwarz) |
| Correlation.CoefficientInUnit | crates/omni-benchmark-core/src/pcm.rs:281-298 | the correlation coefficient of two signals of the same length lies in [-1, 1] |
| Correlation.PearsonInUnit | crates/omni-benchmark-core/src/pcm.rs:276-299 | so does that of the common part of signals of any lengths, which is 0 below 12 samples |
| AecWindow.Derive | crates/omni-benchmark-core/src/aec.rs:78-98 | an active reference has positive energy, an identifiable window has every divisor of the analysis positive, and a quiet window has no reference |
| AecVerdict.SolveIsOptimal | crates/omni-benchmark-core/src/aec.rs:99-107 | in an identifiable window the solve is optimal over the references in use, for one reference as for two |
| AecVerdict.SolveBounds | crates/omni-benchmark-core/src/aec.rs:99-107 | its residual is between zero and the energy of the signal, or the pre-cancellation energy when not identifiable |
| AecVerdict.PreUnexplainedInUnit | crates/omni-benchmark-core/src/aec.rs:135-136 | the pre-cancellation unexplained ratio of every window is in [0, 1], whatever its verdict |
| AecVerdict.PassedExactlyWhen | crates/omni-benchmark-core/src/aec.rs:84-131 | a window passes if and only if it is certified: quiet without a reference, or identifiable with both fits explaining all but a fifth of the energy, the least possible echo before at least ten times the most possible after, and an active source positive and within the tolerance |
| AecVerdict.EchoBounds | crates/omni-benchmark-core/src/aec.rs:108-115 | the bounds lie on either side of the echo coefficient |
| AecNoise.UncertaintyIsThreeSigma | crates/omni-benchmark-core/src/aec.rs:108-113 | per unit of unexplained rms the margin is three standard errors: its square times (n - 2) times the echo energy not shared with the source is 9 times the source energy (9 for echo alone) |
| AecVerdict.ReportIs | crates/omni-benchmark-core/src/aec.rs:99-136 | the reported gains, unexplained shares, attenuation and source ratio are the figures of the two fits, as products instead of quotients |
| AecVerdict.CertifiedIsSound | crates/omni-benchmark-core/src/aec.rs:84-131 | a certified window has least-squares gains with |post echo| at most a tenth of |pre echo| and positive source gains equal within the tolerance, or is truly quiet |
| AecVerdict.PassedIsSound | crates/omni-benchmark-core/src/aec.rs:84-131 | hence so does every passed window |
| AecReferences.ActiveExactlyWhen | crates/omni-benchmark-core/src/aec.rs:86-87 | a reference is active exactly from 10^-8 of energy per sample on |
| AecReferences.IdentifiableExactlyWhen | crates/omni-benchmark-core/src/aec.rs:96-98 | a window is identifiable exactly if it has 480 samples, an active reference, some energy before, and for two references the square of their inner product is at most 0.9604 of the product of their energies; the determinant is then positive by itself |
| AecMixture.SolveRecovers | crates/omni-benchmark-core/src/aec.rs:99-107 | from an exact mixture of the references in use the solve recovers the coefficients and leaves nothing, for one reference as for two |
| AecMixture.IdealWindowPassesExactlyWhen | crates/omni-benchmark-core/src/aec.rs:84-131 | a window of exact mixtures, with any constant offset, whose references are identifiable passes if and only if the coefficients meet the thresholds: source before above 0.01 and kept within the tolerance, echo before above 0.01 and at most a tenth after |
| AecNoise.SolveRecoversNoisy | crates/omni-benchmark-core/src/aec.rs:99-107 | from a mixture with noise orthogonal to the references in use the solve recovers the coefficients and leaves exactly the energy of the noise |
| AecNoise.NoisyWindowPassesExactlyWhen | crates/omni-benchmark-core/src/aec.rs:84-131 | a window of such mixtures passes if and only if the noise is at most a fifth of the energy before and after, the source coefficients meet their thresholds, and so do the echo coefficients with three standard errors taken off before and added after |
| AecAnalysis.CutNext | crates/omni-benchmark-core/src/aec.rs:70-81 | each turn of the loop takes a whole window or, merged, the rest |
| AecAnalysis.CoverageDivides | crates/omni-benchmark-core/src/aec.rs:127-128 | where coverage divides, the divisor is positive |
| AecAnalysis.RetainedAtMostActive | crates/omni-benchmark-core/src/aec.rs:122-128 | retained samples never exceed active ones, over any windows |
| AecAnalysis.RetainedInIs | crates/omni-benchmark-core/src/aec.rs:124-128 | a window with an active source that kept its level retains of its active samples the share c^2 ss / (c^2 ss + u), any other window none |
| AecAnalysis.CoherenceExplains | crates/omni-benchmark-core/src/aec.rs:127-128 | with the source alone that share is the part of the output energy the source explains |
| AecAnalysis.CountActiveCounts | crates/omni-benchmark-core/src/aec.rs:124-126 | the active samples counted are those of at least 10^-4 |
| AecAnalysis.ScanWindows | crates/omni-benchmark-core/src/aec.rs:70-137 | the loop ends with windows that tile [0, n), for n >= 480 exactly (n - 480) / 4800 + 1 of them with 480 to 5279 samples each, the k-th starting at 4800 k, every report that of its window, every counter the sum over them |
| AecAnalysis.Conclude | crates/omni-benchmark-core/src/aec.rs:139-143 | coverage is in [0, 1] and present exactly if source samples were counted; passed exactly if every window passed, three echo windows are valid and coverage is absent or at least 0.95 |
| AecAnalysis.AnalyzeClosedLoop | crates/omni-benchmark-core/src/aec.rs:59-144 | misaligned or empty input and non-finite or out-of-range samples are rejected with one violation; everything else is reported faithfully |
| AecAnalysis.StagePassesExactlyWhen | crates/omni-benchmark-core/src/aec.rs:84-143 | a stage passes if and only if every window is certified, at least three distinct windows are valid and echo-active, and coverage is absent or at least 0.95 |
| AecAnalysis.PassedStageIsSound | crates/omni-benchmark-core/src/aec.rs:84-143 | a passed stage is sound in every window, has at least three valid echo-active windows and coverage at least 0.95 when present |
| AecAnalysis.EverySampleIsInOneWindow | crates/omni-benchmark-core/src/aec.rs:70-81 | windows laid end to end from 0 to n, as the loop leaves them, hold every sample in exactly one of them |
| AecIdealStage.IdealStagePassesExactlyWhen | crates/omni-benchmark-core/src/aec.rs:84-143 | a stage of exact mixtures in which every window tells the references apart passes if and only if the coefficients meet the thresholds and there are three windows; its coverage is then 1 |
| AecSquareWaves.SquareWaveStagePasses | crates/omni-benchmark-core/src/aec.rs:149-158 | such a stage exists: square waves of periods 2 and 4 with a half and a hundredth of the echo, in every whole number of periods from 10080 samples on, are accepted and pass with full coverage |
| AecSquareWaves.NoisyCutFails | crates/omni-benchmark-core/src/aec.rs:108-121 | a family of windows that fail through the uncertainty alone: echo cut from 1 to 0.0999, noise under a fifth of the energy, yet less than ten to one with three standard errors |
| CanonicalPlan.PlanIsSound | crates/omni-benchmark-core/src/pcm.rs:359-374 | for every length and rate the plan fails exactly below three seconds; otherwise nine disjoint segments in order inside the reference: the overlap error is unreachable |
| CanonicalPlan.SegmentLengthIs | crates/omni-benchmark-core/src/pcm.rs:363-364 | segments last a second, or an eleventh of the reference if that is shorter |
| CanonicalPlan.StartsAreSpaced | crates/omni-benchmark-core/src/pcm.rs:366-371 | consecutive starts leave room for a whole segment |
| CanonicalPlan.StartIs | crates/omni-benchmark-core/src/pcm.rs:366-369 | the start fractions in integers |
| CanonicalSearch.WindowCorrelationInUnit | crates/omni-benchmark-core/src/pcm.rs:301-357 | the correlation of two windows lies in [-1, 1], for values as for differences, at any stride |
| CanonicalSearch.Listen | crates/omni-benchmark-core/src/pcm.rs:394-403 | one pass over lags keeps the first best; every window it slices is inside both signals |
| CanonicalSearch.GlobalSearch | crates/omni-benchmark-core/src/pcm.rs:389-404 | the search is the coarse pass then the fine one around its winner; the short-window error exactly when the segments do not fit the recording |
| CanonicalSearch.GlobalDominates | crates/omni-benchmark-core/src/pcm.rs:394-404 | the chosen lag was scored, stays within the maximum and within 80 of the coarse winner, and scores at least as well as the whole coarse grid and every lag within 80 of that winner |
| CanonicalScore.ScoreIs | crates/omni-benchmark-core/src/pcm.rs:376-387 | the polarity is the sign of the mean waveform correlation, and the score is 0.65 of its size plus 0.35 of the mean derivative correlation as far as that has the same sign; it is in [0, 1], and 1 exactly if both means are the polarity |
| CanonicalScore.CopyScoresOne | crates/omni-benchmark-core/src/pcm.rs:376-387 | a recording that repeats every segment of the reference at a lag, upright or inverted, none of them flat, scores 1 there with its own polarity |
| CanonicalScore.CopyIsHeard | crates/omni-benchmark-core/src/pcm.rs:389-405 | if that lag is on the coarse grid, the global search reports a lag that scores 1 with the polarity of all its segments, and this one with its sign if no other lag of the grid scores 1 |
| BestFirst.BestIsFirstMaximum | crates/omni-benchmark-core/src/pcm.rs:417-417 | a running best replaced only by strictly better scores ends as the first maximum of what it saw |
| CanonicalCandidates.Consider | crates/omni-benchmark-core/src/pcm.rs:406-418 | one evaluation: skipped if the fragment does not fit, kept only if better |
| CanonicalCandidates.Sweep | crates/omni-benchmark-core/src/pcm.rs:431-434 | the loop over lags is the fold of its evaluations |
| CanonicalCandidates.LocalSearch | crates/omni-benchmark-core/src/pcm.rs:420-436 | the local search is the composition of its three passes, and finds something exactly if the grid does |
| CanonicalAnalysis.LocalBestDominates | crates/omni-benchmark-core/src/pcm.rs:420-436 | its result was measured inside both signals, beats every place of the grid, and at the finest resolution every lag within 4 of the refined one |
| CanonicalAnalysis.SegmentIsSearchable | crates/omni-benchmark-core/src/pcm.rs:425-432 | for rates of at least 20 no segment is shorter than a fragment, the lag range holds the anchor lag, and the first place fits |
| CanonicalAnalysis.Candidates | crates/omni-benchmark-core/src/pcm.rs:420-448 | panics exactly for rates below 20, and otherwise reports the best local match of each segment: the no-fragment error is unreachable |
| CanonicalAnalysis.CandidateIsSound | crates/omni-benchmark-core/src/pcm.rs:437-446 | every candidate lies inside its segment and the recording and its local lag is within rate / 5 of the anchor lag |
| CanonicalAnalysis.CandidateReports | crates/omni-benchmark-core/src/pcm.rs:407-447 | the figures of a candidate are the correlations of the two stretches it names, turned by the polarity |
| CanonicalAnalysis.CandidateBeatsGrid | crates/omni-benchmark-core/src/pcm.rs:420-433 | no fragment a multiple of rate / 20 into the segment, at no lag within rate / 5 of the global one in steps of 80, weighs more |
| CanonicalScore.LocalBestOfCopy | crates/omni-benchmark-core/src/pcm.rs:407-436 | if the grid holds a place where a fragment that is not flat is repeated with the polarity, the local best correlates fully in waveform and in derivative |
| CanonicalAnalysis.AnalyzeCanonical | crates/omni-benchmark-core/src/pcm.rs:467-471 | fails exactly below three seconds of common length, panics exactly for rates below 20 otherwise, and else returns nine candidates |
| CanonicalScore.CopyIsRecognised | crates/omni-benchmark-core/src/pcm.rs:467-472 | the reference repeated from a lag of the coarse grid on that no other lag of it matches: the analysis reports that lag and polarity, and candidates that correlate fully |
| CanonicalAnalysis.LowRatePanics | crates/omni-benchmark-core/src/pcm.rs:420-431 | a concrete input that panics: three seconds at a rate of 19 |
| TopList.StableSortSorts | crates/omni-benchmark-core/src/pcm.rs:603-603 | the sort orders and permutes |
| TopList.AdmitKeepsTop | crates/omni-benchmark-core/src/pcm.rs:601-605 | offering one more score keeps the list sorted, as long as possible up to 12, and everything left out no better than anything kept |
| TopList.KeptIsTop | crates/omni-benchmark-core/src/pcm.rs:594-606 | after any sequence of offers the list is the top twelve of them |
| CueCorrelation.TranslatedPearson | crates/omni-benchmark-core/src/pcm.rs:511-537 | the one-pass loop computes the correlation of the samples it visits, or of their differences, from five sums |
| CueCorrelation.OnePassIsCoefficient | crates/omni-benchmark-core/src/pcm.rs:530-537 | over exact reals the five-sum formula is the centred correlation coefficient, or 0 where the signals are too flat |
| CueCorrelation.OnePassInUnit | crates/omni-benchmark-core/src/pcm.rs:511-537 | it lies in [-1, 1] |
| CueBurst.SilenceScoresNothing | crates/omni-benchmark-core/src/pcm.rs:511-537 | a recording silent up to the last sample the prefilter visits correlates to 0, for values and differences |
| CueBurst.BurstScoresSomething | crates/omni-benchmark-core/src/pcm.rs:511-537 | a click in the reference against a short burst reaching that sample correlates above 0 |
| CueBurst.RenderedAsIs | crates/omni-benchmark-core/src/pcm.rs:488-509 | a mono track of 16 kHz is rendered sample by sample |
| LagSearch.PrefilterAt | crates/omni-benchmark-core/src/pcm.rs:599-600 | the prefilter score is computed by two passes over the recording |
| LagSearch.Prefilter | crates/omni-benchmark-core/src/pcm.rs:592-606 | the loop hands on the bounded list of all scanned scores, offered in lag order |
| LagSearch.EvaluateAt | crates/omni-benchmark-core/src/pcm.rs:574-591 | a lag is evaluated window by window, and not at all if one window leaves the recording; polarity and medians as in the code |
| CueScore.MedianIsMiddle | crates/omni-benchmark-core/src/pcm.rs:539-543 | the median is the mean of the two middle values, each with half of all values at or below and half at or above |
| CueScore.SimilarityReachesExactlyWhen | crates/omni-benchmark-core/src/pcm.rs:574-591 | a lag scores at least t if and only if for one sign, the same for both, the median of the waveform correlations and that of the derivative correlations are at least t |
| CueScore.SimilarityInUnit | crates/omni-benchmark-core/src/pcm.rs:574-591 | no lag scores more than 1 or less than -1 |
| CueCopy.CopyScoresOne | crates/omni-benchmark-core/src/pcm.rs:574-591 | a lag at which the recording holds every window of the cue, upright or inverted, none of them flat, scores 1 |
| CueCopy.TwoPointsExactlyWhen | crates/omni-benchmark-core/src/pcm.rs:594-600 | the prefilter gives two points exactly to full correlation in waveform and in derivative |
| LagSearch.LastBestIsLastMaximum | crates/omni-benchmark-core/src/pcm.rs:607-608 | the last maximum among the complete lags of the shortlist, none exactly if none is complete |
| LagSearch.Refine | crates/omni-benchmark-core/src/pcm.rs:609-613 | the loop keeps the first strict improvement over the lags around, both ends clipped |
| LagSearch.RefineDominates | crates/omni-benchmark-core/src/pcm.rs:609-613 | the refined lag stays in the radius and within 2 of the centre and scores no less than the centre and every complete lag refined |
| LagSearch.EndingSettles | crates/omni-benchmark-core/src/pcm.rs:592-613 | the search fails exactly when no lag of the top twelve is complete; otherwise the result was evaluated in full and scores no less than every complete lag of the shortlist and every one refined around the last maximum |
| LagSearch.FindCue | crates/omni-benchmark-core/src/pcm.rs:556-613 | the whole search over PCM of any channel count and rate: its errors, and otherwise that ending |
| CueCopy.CopyIsFound | crates/omni-benchmark-core/src/pcm.rs:592-613 | if the recording holds the cue itself at a complete lag of the radius and the prefilter cannot tell twelve other lags from it, the search ends with score 1, and at that lag if no other complete lag scores 1 |
| LagSearch.LayoutIs | crates/omni-benchmark-core/src/pcm.rs:568-573 | windows of 11200 samples, or of the whole cue if shorter, at 2, 12.5 and 22.5 twenty-fifths of the room, rounded |
| LagSearchCoverage.LagsAre | crates/omni-benchmark-core/src/pcm.rs:578-598 | the complete lags are an interval, followed by those only the prefilter can hear |
| LagSearchCoverage.FewTrapsFind | crates/omni-benchmark-core/src/pcm.rs:592-608 | with a complete lag in the radius and fewer than twelve lags that only the prefilter can hear, the search finds something whatever the PCM |
| LagSearchCoverage.ManyTrapsMiss | crates/omni-benchmark-core/src/pcm.rs:592-608 | with twelve or more, a click and a burst make it report no complete window |
| LagSearchCoverage.AlwaysFindsExactlyWhen | crates/omni-benchmark-core/src/pcm.rs:592-608 | for given lengths, expected start and radius the search finds something for all PCM if and only if some lag is complete and fewer than twelve are heard by the prefilter only |
| LagSearchCoverage.ShortRecordingIsMissed | crates/omni-benchmark-core/src/pcm.rs:592-608 | a concrete reference and recording of 400 ms for which it reports no complete window although lag 0 is complete |

## Left out

- Floating-point rounding: all measurements are exact reals; decibel thresholds are ratios (20 dB is 10, 3 dB a tolerance above 1, whose actual value is the 20th root of 1000), and the square root is any function with its law.
- Rounding of reported figures to six decimals, the energy ratio of canonical candidates, and the wrong-reference controls, which run the same search on other signals.
- The cue search reports besides its lag the polarity, the minima, the matched positions and the segment matches; these follow from the lag and are not modelled.
- Timeouts and sleeps: `send_until` is any number of single attempts, and a receipt or flush that times out is a submission whose answer nobody reads.
- Blocking on the directory lock: the writer waits by not taking its step, or the call fails.
- `Path::exists` answers truthfully; an I/O error that makes it answer false is not modelled.
- One writer per directory; a second process with its own pipeline on the same path is not modelled beyond its appends to the active file, each one open, append and close.
- Reading a file during an export is atomic; a read that overlaps an append is not split.
- Creation of directories, the evidence text itself, log levels and JSON shapes.
- A crash keeps the names as they are: loss of a rename or of a created file that never reached the directory on disk is not modelled.
- Widths of 64-bit counters, file lengths and sample positions; 32-bit ring offsets and the length type of frame validation are modelled.
- Fields of the frame header that validation does not look at; error texts are enumerated.
- LogRetention.RecentBytesAreOnDisk: stated for directories that start with contiguous generations of at least the size limit, the empty directory among them; after a failed rename that left a gap the program gives no such bound.
- LogLedger.PlacedStep: `write_all` appends a line in one step, or a proper prefix of it and fails. A line written in several pieces with another process appending between them would not be whole in the log or in its file; the source disclaims atomic lines for appenders that take no lock.
- LogCrash.NamedSurvives: that each life starts on full, contiguous generations is a condition; `LogRestart` proves it for lives that end without a failed write, without a gap and outside a shift, and for a life cut short in another way nothing is said of the directory beyond what was synced in its files.
- WASAPI, named pipes, device control codes, the echo canceller itself, the user interface, and `omni-audio-dsp`: foreign code, or decibel arithmetic that would rest on assumptions.
- Envelope similarity, fingerprints, percentile summaries, monitor mixing: easy members.
