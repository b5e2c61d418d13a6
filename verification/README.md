# Nexus firmware: verified models

This project models the parts of the Nexus speaker firmware and its streamer whose correctness is
not evident from reading one function, and proves what they are for. `dafny verify dfyconfig.toml`
checks everything.

| part | files | what is proved |
|---|---|---|
| FFT | Ring, Powers, Fft | the in-place radix-2 transform computes the DFT sum, over any commutative ring |
| QR encoder | Gf256, ReedSolomon, ReedSolomonDistance, QrStream, QrBlocks, QrLayout, QrWalk, QrCapacity, QrMatrix, QrEncoder, QrDamage | a reader of the drawn symbol recovers every text that fits; every block is a Reed-Solomon codeword, and half as many wrong bytes as error codewords leave the text determined |
| arrival detector | Arrival | a clean echo is found at its exact lag, whatever its gain and offset; a peak lies between 0 and 1 |
| event bus | EventBus | nothing accepted is lost, reordered or dispatched twice, in any interleaving; a subscriber that stays gets each event it wants once |
| playback | Options, Words, AudioBuffer, Playback | packets are conserved, served queues never overflow, two speakers stay aligned |
| commands | Json, Decimals, Command, CommandRouter, CommandEviction, CommandGateway | the cache window, exactly; gateway commands are accepted end to end |
| configuration | AtomicFile, Config | exactly when a crash in an update leaves the old or the new config; over any history from the factory on, the config on disk is whole |
| updater | Versions, Updater | the binary is the original or a verified payload, save for a torn rollback; exactly when a crash may break that |
| supervision | System | repeated watchdog timeouts end in safe mode, once and for good; exactly when it shows |
| provisioning | Provisioning | the setup channels follow the uplink; hotspot drift is undone |
| audio processing | Biquad, Stability, Response, Equalizer, Delay | the filters are their difference equations; exactly which bands stay bounded; the delay is a shift |

How the models are built:

- Code that changes state is a class or a method on arrays, proved against a pure function of the old
  state; the theorems about whole runs are lemmas over those functions.
- Threads become interleavings of the lock-protected steps. Between two steps anything may happen.
- Clocks, salts, health answers, network answers, the executor's results and the replies of the
  operating system are inputs, so the claims hold for all of them. System call replies come from a
  finite script of any length and content; a script that ends goes on with failures.
- JSON text, Ed25519 and SHA-256 are functions. The only laws used: parsing undoes dumping, which a
  codec given here shows can be met, and a key pair accepts the signatures it makes. Numbers in JSON
  are 64-bit integers or finite doubles; the conversion of one to the other is an input.
- Arithmetic of doubles is over `real` or an abstract ring. Of `sin`, `cos`, `sqrt` and powers of ten
  only these facts are used: their ranges, the sign of the sine over one turn, sin^2 + cos^2 = 1,
  10^x 10^x = 10^(2x), 10^x = 1 only at 0, and, where said, that the root squares back. 64-bit and
  32-bit wrap-around is written out where the source has it.

## Findings

Where the code does not do what a comment or a name promises, the model follows the code.

- `EventBus::stop` may return before the worker is done when it is the second call
  (`EventBus.SecondStopEarly`); exactly then if something is in flight (`EventBus.SecondStop`).
- A subscriber that calls `drain` blocks the bus for ever (`EventBus.HandlerDrainHangs`); otherwise
  drain can return (`EventBus.DrainReachableIff`).
- The loss counter misjudges packets that arrive after sequence number 2^64 - 1
  (`AudioBuffers.LossIdentity`, `AudioBuffers.LossAtTheTop`).
- A prefill above the capacity is accepted and playback then never starts (`Playback.OverflowFreeIff`).
- The command cache is described as least-recently-used; it is first-in first-out: how long a result
  stays depends on other ids recorded alone (`CommandHistories.CachedIff`), and a hit does not refresh
  it (`CommandEviction.HitDoesNotRefresh`).
- A crash in an update may bring back a config older than both, if the update before it could not
  sync the directory, which it does not report (`ConfigManagers.StaleConfigRun`); the exact condition
  is `ConfigManagers.OldOrNewIff`.
- A corrupt config recovered from its backup may be gone from the disk although loading reports
  success (`ConfigManagers.LostBackupRun`); the exact condition is in `ConfigManagers.ConfigManager.Load`.
- A rollback is a plain copy and may tear the target (`Updaters.TornRollback`,
  `Updaters.RollbackWholeIff`), although the installer is atomic. The installer ignores its fsync, so a
  crash after a reported success may leave neither binary (`Updaters.UnflushedUpdate`); the exact
  condition for a crash anywhere in an update is `Updaters.CrashWholeIff`. Versions are compared as text, which is right exactly under the
  condition of `Updaters.CompatibleIff`; 1.10 against 1.9 fails it (`Updaters.TextualVersions`).
- Safe mode is meant to show as Degraded. An invalid config at boot leaves the device in Booting
  (`Systems.SafeModeAtBoot`), and one more track brings a degraded device back to Playing with safe mode
  on (`Systems.PlayingInSafeMode`); the exact condition is `Systems.SafeModeShowsIff`.
- The forced NetworkDisconnected is meant to bring the hotspot back after a failed join; it does so
  only if there had been an uplink, or nothing had taken the hotspot down
  (`Provisioning.FailedJoinRaisesIff`).
- An equalizer band centred above half the sample rate grows without bound at any gain but 0 dB
  (`Responses.TameBelowHalfIff`, `Responses.TopBandAt32kHz`); at exactly half it does nothing. The table
  goes up to 20 kHz and the sample rate is not checked.

## Model

| member | source | states |
|---|---|---|
| `Fft.Transform` | src/calibration/Fft.h:14-40 | for every power-of-two length, every input and every commutative ring with a principal root w and per-level roots w^(n/len), the array ends as the plain DFT sum of what it held; lengths 0 and 1 are left alone |
| `Fft.DitOfBitReversed` | src/calibration/Fft.h:18-39 | decimation in time applied to the bit-reversed sequence is the DFT sum, an independent definition |
| `Fft.Permute` | src/calibration/Fft.h:19-24 | the first loop permutes the array by bit reversal, in place |
| `Fft.NextReversed` | src/calibration/Fft.h:20-22 | the carry loop terminates and turns the reversal of i - 1 into the reversal of i |
| `Fft.RevSuccessor` | src/calibration/Fft.h:20-22 | counting up reversed: the carry rule on the reversal of i gives the reversal of i + 1 |
| `Fft.RevInvolution` | src/calibration/Fft.h:18-24 | bit reversal undoes itself, so each pair is swapped once |
| `Fft.BitReversedAt` | src/calibration/Fft.h:18-24 | the recursive even/odd split puts element Rev(k) at place k |
| `Fft.PermutedIsBitReversed` | src/calibration/Fft.h:18-24 | swapping only where i < j, for every i, gives the whole permutation |
| `Fft.ButterflyBlock` | src/calibration/Fft.h:29-38 | one inner loop turns two half-length transforms into one and touches nothing else |
| `Fft.Pass` | src/calibration/Fft.h:29-38 | one pass turns every chunk done at length h into chunks done at length 2h |
| `Fft.AllPasses` | src/calibration/Fft.h:26-39 | after the last pass the single chunk is the whole recursive transform of the permuted input |
| `Gf256.PowersCover` | src/web/QrEncoder.cpp:12-24 | the successive doublings modulo 0x11D run through every non-zero byte: 2 is primitive |
| `Gf256.FieldLaws` | src/web/QrEncoder.cpp:25-28 | the product by logarithms with XOR as sum is a commutative ring (associativity, distributivity, units) |
| `Gf256.Inverse` | src/web/QrEncoder.cpp:25-28 | every non-zero byte has an inverse for that product |
| `Gf256.MulByLogs` | src/web/QrEncoder.cpp:25-28 | exp[(log a + log b) % 255] is the product whatever logarithms are used |
| `ReedSolomon.Tables.constructor` | src/web/QrEncoder.cpp:15-24 | the built tables hold every power and, for every non-zero byte, a logarithm |
| `ReedSolomon.Tables.Product` | src/web/QrEncoder.cpp:25-28 | the table lookup is the field product, zero included |
| `ReedSolomon.Generator` | src/web/QrEncoder.cpp:38-50 | the generator is monic of degree ec_len and vanishes at 2^0 to 2^(ec_len-1) |
| `ReedSolomon.DivideAt` | src/web/QrEncoder.cpp:55-59 | one division step clears its coefficient and keeps the value at every root |
| `ReedSolomon.Remainder` | src/web/QrEncoder.cpp:52-61 | the remainder has the syndromes of the shifted data |
| `ReedSolomon.Encode` | src/web/QrEncoder.cpp:36-62 | for every data and every ec_len up to the table size, data followed by the result vanishes at 2^0 to 2^(ec_len-1) |
| `ExpOrder.ExpInjective` | src/web/QrEncoder.cpp:12-24 | the 255 powers in the table are pairwise different |
| `PowerSums.Independent` | src/web/QrEncoder.cpp:36-62 | as many vanishing power sums as terms at different places leave every coefficient zero (over a ring without zero divisors) |
| `ReedSolomonDistance.WeightAbove` | src/web/QrEncoder.cpp:36-62 | a non-zero codeword of length at most 255 has more than ec non-zero bytes |
| `ReedSolomonDistance.MinimumDistance` | src/web/QrEncoder.cpp:36-62 | two different codewords of one length, at most 255, differ in more than ec bytes |
| `ReedSolomonDistance.UniqueCorrection` | src/web/QrEncoder.cpp:36-62 | at most one codeword lies within ec / 2 wrong bytes of a received block |
| `QrStream.ChooseVersion` | src/web/QrEncoder.cpp:92-100 | the smallest of versions 1 to 10 that fits; refused exactly beyond 213 bytes |
| `QrStream.Put` | src/web/QrEncoder.cpp:105-107 | appends the len-bit binary form of val |
| `QrStream.PackBytes` | src/web/QrEncoder.cpp:124-130 | the bytes unpack to exactly the bits that were packed |
| `QrStream.BuildData` | src/web/QrEncoder.cpp:111-137 | mode, length, text, terminator of up to four zeros, zero padding, then alternating pad bytes, to exactly the version's data codewords |
| `QrStream.ParseCarried` | src/web/QrEncoder.cpp:111-137 | reading mode, length and bytes back from any such stream gives the text |
| `QrBlocks.SplitBlocks` | src/web/QrEncoder.cpp:139-151 | the blocks partition the data in order, the last rem one longer, each with its own Reed-Solomon codewords |
| `QrBlocks.InterleaveData` | src/web/QrEncoder.cpp:152-158 | codeword i of block b lands at its place in the interleaving, for blocks of two sizes |
| `QrBlocks.InterleaveEcc` | src/web/QrEncoder.cpp:159-161 | error codeword i of block b lands at its place |
| `QrBlocks.ProtectAndInterleave` | src/web/QrEncoder.cpp:139-163 | de-interleaving gives the data back and every block read back is a Reed-Solomon codeword |
| `QrBlocks.BuildCodewords` | src/web/QrEncoder.cpp:111-163 | de-interleaving and parsing the codewords gives the text back; all blocks are protected |
| `QrLayout.WalkMeets` | src/web/QrEncoder.cpp:240-253 | the zig-zag meets every module outside column 6 |
| `QrLayout.WalkInverse` | src/web/QrEncoder.cpp:240-253 | and meets each exactly once, never column 6, never outside the symbol |
| `QrLayout.TimingColumnIsFunction` | src/web/QrEncoder.cpp:212-231 | column 6, which the walk skips, holds only function modules |
| `QrWalk.CapacityCounts` | src/web/QrEncoder.cpp:240-253 | the walk meets exactly as many unset modules as there are data modules |
| `QrCapacity.EnoughModules` | src/web/QrEncoder.cpp:234-254 | in every version the walk has room for every codeword bit |
| `QrMatrix.Matrix.PlaceFinder` | src/web/QrEncoder.cpp:175-190 | exactly the finder box with its separator is written, clipped at the edges |
| `QrMatrix.Matrix.PlaceAlignment` | src/web/QrEncoder.cpp:197-210 | exactly the alignment patterns away from the finders are written |
| `QrMatrix.Matrix.PlaceTiming` | src/web/QrEncoder.cpp:212-218 | exactly the unset timing modules are written |
| `QrMatrix.Matrix.ReserveFormat` | src/web/QrEncoder.cpp:221-231 | exactly the unset format modules are reserved and the dark module set |
| `QrMatrix.Matrix.PlaceFunctions` | src/web/QrEncoder.cpp:322-328 | the base symbol is the layout, module by module, and the fixed flags are the function modules |
| `QrMatrix.Matrix.PlaceData` | src/web/QrEncoder.cpp:234-254 | each data module receives the bit of its rank in the walk, zero past the end; no function module changes |
| `QrEncoder.ApplyMask` | src/web/QrEncoder.cpp:335-339 | flips exactly the non-fixed modules the mask selects |
| `QrEncoder.ApplyFormat` | src/web/QrEncoder.cpp:274-293 | writes both copies of the 15 format bits and the dark module, nothing else |
| `QrEncoder.MaskReadBack` | src/web/QrEncoder.cpp:271-272 | the mask number is recovered from three bits of its format word, for all eight |
| `QrEncoder.FormatIsFunction` | src/web/QrEncoder.cpp:274-293 | format cells are function modules, so writing them destroys no data |
| `QrEncoder.Penalty` | src/web/QrEncoder.cpp:295-313 | the sum over rows and columns of the run penalties; for every symbol size below the 2^30 the search starts from |
| `QrEncoder.ChooseMask` | src/web/QrEncoder.cpp:331-345 | the first mask of least penalty among the eight |
| `QrEncoder.ReadCodewordsBack` | src/web/QrEncoder.cpp:317-352 | reading the mask from the format cells, unmasking and walking any symbol drawn gives the codewords back |
| `QrEncoder.Encode` | src/web/QrEncoder.cpp:317-352 | for every text: refused exactly beyond 213 bytes, otherwise the smallest version, a well-formed symbol with all blocks protected and a least-penalty mask, and the reader gives the text back |
| `QrDamage.DamagedDataDetermined` | src/web/QrEncoder.cpp:139-163 | codewords with at most ec / 2 wrong bytes in every block determine the data, in all ten versions |
| `QrDamage.DamagedTextDetermined` | src/web/QrEncoder.cpp:317-352 | two finished symbols that could have been damaged so into the same codewords carry the same text |
| `Arrival.AutoPeak` | src/measure/ArrivalDetector.h:76-92 | a signal that is not silent correlates with itself strictly less at every other shift (Cauchy-Schwarz with strictness) |
| `Arrival.Normalize` | src/measure/ArrivalDetector.h:32-51 | subtracts the mean and scales by one over norm plus epsilon, for any non-negative root |
| `Arrival.Search` | src/measure/ArrivalDetector.h:78-110 | the earliest greatest correlation, found only when positive, and the greatest outside the guard as second peak |
| `Arrival.EchoPeaks` | src/measure/ArrivalDetector.h:82-92 | for an offset, scaled copy at delay l every other lag correlates strictly less, and l positively |
| `Arrival.CleanArrivalFound` | src/measure/ArrivalDetector.h:62-99 | any result meeting the search's contract on such a recording is found at lag l |
| `Arrival.CorrWithin` | src/measure/ArrivalDetector.h:82-92 | signals of power at most one correlate between -1 and 1 at every lag (Cauchy-Schwarz) |
| `Arrival.PeakWithin` | src/measure/ArrivalDetector.h:13-28 | with a true square root, for any recording, every correlation searched lies in [-1, 1], the peak in (0, 1] and the second peak below it |
| `Arrival.FindArrival` | src/measure/ArrivalDetector.h:62-99 | not found on degenerate input; otherwise the search's contract over the normalized signals; for every offset and positive gain the exact lag of a clean arrival within the limit; and a peak in (0, 1] for any recording |
| `EventBus.RunKeepsInv` | src/core/EventBus.cpp:88-156 | every interleaving of publishers, subscribers, worker, drainers and stop keeps the bus invariant |
| `EventBus.Conservation` | src/core/EventBus.cpp:88-141 | in_flight is queued plus dispatching, and dispatched ++ dispatching ++ queued is what was accepted, in order |
| `EventBus.DrainComplete` | src/core/EventBus.cpp:143-146 | when drain returns, everything accepted has been dispatched, and the handler calls are those of each event's recorded snapshot, once each, in order |
| `EventBus.SnapshotFair` | src/core/EventBus.cpp:101-107 | the snapshot of handlers holds a subscriber once if it wants the event and not otherwise |
| `EventBus.SubscriberServed` | src/core/EventBus.cpp:64-146 | a subscription that is kept receives every event published from then on that it wants exactly once, and no other, in any interleaving; by the time drain returns, all of them |
| `EventBus.ExitComplete` | src/core/EventBus.cpp:124-141 | the worker exits only after dispatching every accepted event |
| `EventBus.ExitIsFinal` | src/core/EventBus.cpp:124-141 | after it has exited nothing more is accepted |
| `EventBus.StopComplete` | src/core/EventBus.cpp:148-156 | the stop call that joins the worker returns only when every accepted event is dispatched |
| `EventBus.SecondStop` | src/core/EventBus.cpp:148-152 | a later stop call returns at once: everything is dispatched then if and only if nothing is in flight |
| `EventBus.SecondStopEarly` | src/core/EventBus.cpp:148-152 | the run publish, stop, stop: the second stop returns with the event undispatched |
| `EventBus.DrainReachable` | src/core/EventBus.cpp:124-146 | unless a handler is itself draining, worker steps alone, with handlers that return or throw, lead to an idle bus |
| `EventBus.HandlerDrainHangs` | src/core/EventBus.cpp:136-145 | a handler that calls drain never returns: nothing more is dispatched and neither drain nor the joining stop returns |
| `EventBus.DrainReachableIff` | src/core/EventBus.cpp:124-146 | drain can still return if and only if no handler is draining |
| `EventBus.DrainWaitsForDispatch` | src/core/EventBus.cpp:143-146 | drain cannot return while an event is being dispatched |
| `EventBus.MatchingExact` | src/core/EventBus.cpp:101-107 | the handlers copied are exactly those subscribed to all events or to this type |
| `EventBus.WithoutExact` | src/core/EventBus.cpp:78-86 | unsubscribing removes exactly that token's subscription |
| `EventBus.SharedBus.Publish` | src/core/EventBus.cpp:88-96 | refused once stopped, otherwise queued and counted: one step of the model |
| `EventBus.SharedBus.WorkerTake` | src/core/EventBus.cpp:127-133 | exits when stopped and empty, otherwise takes the oldest event |
| `EventBus.SharedBus.WorkerFinish` | src/core/EventBus.cpp:135-139 | one event less in flight; reports idle at zero |
| `EventBus.SharedBus.Unsubscribe` | src/core/EventBus.cpp:78-86 | the search loop erases the first matching subscription |
| `AudioBuffers.AudioBuffer.Push` | src/audio/AudioBuffer.cpp:5-23 | counts, infers loss in 64-bit arithmetic, drops the oldest at capacity, appends |
| `AudioBuffers.AudioBuffer.Pop` | src/audio/AudioBuffer.cpp:25-34 | the oldest packet, or an underflow counted |
| `AudioBuffers.PacketsConserved` | src/audio/AudioBuffer.cpp:5-34 | over every run since reset: departures in order followed by the queue are the pushed packets, victims being oldest; received = played + dropped + depth; the queue never exceeds capacity |
| `AudioBuffers.TracksHighest` | src/audio/AudioBuffer.cpp:13-16 | last_sequence is the highest number heard, in any order of arrival |
| `AudioBuffers.LossIdentity` | src/audio/AudioBuffer.cpp:9-16 | lost plus new-maximum arrivals equals last - first + 1 all along a run if and only if nothing but number 0 arrives once 2^64 - 1 was heard |
| `AudioBuffers.LossAtTheTop` | src/audio/AudioBuffer.cpp:10-12 | the wrap of last + 1: after 2^64 - 1, hearing number 1 counts as a loss |
| `Playback.PlaybackManager.Step` | src/audio/PlaybackManager.cpp:34-95 | one step, its buffer calls taken together: wait for prefill, hold an early head unless nearly full, play it, or note an underflow and re-prefill; frames reported are those the device took |
| `Playback.NoOverflow` | src/audio/PlaybackManager.cpp:34-81 | with prefill within capacity and a step after each push, for any timestamps and clock: no packet is dropped, played ++ queued is what was received, and depth after a step is below max(prefill, 80% of capacity) |
| `Playback.NeverStarts` | src/audio/PlaybackManager.cpp:34-39 | with prefill beyond capacity playback never starts and every further packet drops an older one |
| `Playback.OverflowFreeIff` | src/audio/PlaybackManager.cpp:63-73 | no served run overflows if and only if prefill is within capacity |
| `Playback.DueIff` | src/audio/StreamSync.cpp:31-38 | due means the clock is within the target lead of the stamp, and stays so |
| `Playback.NeverEarly` | src/audio/PlaybackManager.cpp:41-76 | each packet the schedule released left alone, at the first step after its predecessor at which the clock was within the lead |
| `Playback.FollowsSchedule` | src/audio/PlaybackManager.cpp:34-81 | a well supplied speaker has released exactly the prefix that stamps and clock alone decide |
| `Playback.SpeakersAligned` | src/audio/PlaybackManager.cpp:41-49 | two well supplied speakers on the same clock readings release packet k on the same step, whatever their jitter, prefill and capacity |
| `Commands.WireRoundTrip` | src/control/Command.cpp:5-21 | parsing what toJson wrote gives the command back, except that a non-object payload becomes the empty object |
| `Commands.CanonicalInjective` | src/control/Command.h:34-38 | equal canonical texts mean equal commands, the signature aside, if no name holds a line break |
| `Commands.CanonicalAmbiguous` | src/control/Command.h:34-38 | every command with a line break in a name shares its canonical text with a different one |
| `JsonCodecs.SomeCodecRoundTrips` | src/control/Command.h:32-38 | the round-trip law asked of JSON text can be met: a prefix code for all representable values, with its parser |
| `Commands.BuiltIsAccepted` | streamer/src/control/CommandSigner.cpp:10-31 | a built command, with any payload, survives the wire unchanged and passes the validator if and only if it is named and unexpired |
| `CommandHistories.CommandHistory.Record` | src/control/CommandHistory.cpp:10-23 | replaces, or evicts the oldest and appends; ids stay duplicate-free and equal to the map's keys |
| `CommandHistories.CommandHistory.TryGet` | src/control/CommandHistory.cpp:25-31 | the stored result exactly when the id is cached |
| `CommandHistories.CachedIff` | src/control/CommandHistory.cpp:10-23 | a result recorded and not recorded again is cached if and only if fewer than capacity other ids have been recorded since |
| `CommandRouters.CachedBeforeIff` | src/control/CommandRouter.cpp:35-60 | the same for runs of requests, however often the id was asked for in between |
| `CommandEviction.HitDoesNotRefresh` | src/control/CommandHistory.cpp:16-22 | the run a, b, a, c with room for two: the second a is a hit, yet a is evicted and b kept |
| `CommandRouters.CommandRouter.Handle` | src/control/CommandRouter.cpp:17-61 | parse, look up, validate, execute and record in that order, for any executor |
| `CommandRouters.RepeatIsAnsweredFromCache` | src/control/CommandRouter.cpp:35-60 | in every run a repeat of a recorded id is answered with the first execution's result, without executing, unless capacity distinct other ids were recorded in between |
| `CommandRouters.ExecutionsFarApart` | src/control/CommandRouter.cpp:35-60 | between two executions of one recorded id at least capacity distinct other ids were recorded |
| `CommandRouters.LinkReportsInvisible` | src/control/CommandRouter.cpp:55-59 | striking every REPORT_LINK from a run changes no other answer or execution and not the cache |
| `CommandRouters.OnlyAuthorizedExecutes` | src/control/CommandRouter.cpp:22-59 | in every run only a signed, addressed, unexpired and uncached command executes, exactly as its line says; any other request leaves the cache alone |
| `CommandRouters.CachedIdWasHeard` | src/control/CommandRouter.cpp:53-60 | the cache only holds ids of requests already heard |
| `CommandGateways.CommandGateway.NextCommandId` | streamer/src/app/CommandGateway.cpp:39-47 | uses the counter, then advances it modulo 2^64 |
| `CommandGateways.CommandGateway.Compose` | streamer/src/app/CommandGateway.cpp:63-76 | the line sent is the signed command of the next id, or nothing when signing fails |
| `CommandGateways.Serve` | streamer/src/app/CommandGateway.cpp:63-76 | a new gateway's k-th line carries counter k modulo 2^64 |
| `CommandGateways.IdsDistinct` | streamer/src/app/CommandGateway.cpp:39-47 | ids with different counters differ whatever clock, salt and command text |
| `CommandGateways.IssuedIdsDistinct` | streamer/src/app/CommandGateway.cpp:39-47 | ids issued by one gateway are pairwise distinct among any 2^64 in a row |
| `CommandGateways.CounterTextFits` | streamer/src/app/CommandGateway.cpp:44-45 | the 32-byte buffer never cuts the counter and salt |
| `CommandGateways.EveryOrderExecutes` | streamer/src/app/CommandGateway.cpp:63-76 | a speaker that hears different lines of one gateway, in any order, executes each command exactly as built if and only if it is named and unexpired, and answers none from its cache |
| `AtomicFiles.FileSystem.AtomicWriteFile` | src/core/AtomicFile.cpp:14-62 | exactly when it succeeds and what a crash may still bring back, from the system's replies; success leaves the whole text synced, failure the old file; every disk in between shows one or the other |
| `AtomicFiles.WillingIsDurable` | src/core/AtomicFile.cpp:14-62 | when every system call succeeds the write is durable |
| `Configs.JsonRoundTrip` | src/config/ConfigSerialization.h:12-90 | reading back what was written gives the config without device.name, valid exactly when the original is |
| `ConfigManagers.ConfigManager.Persist` | src/config/ConfigManager.cpp:118-130 | refuses an invalid config untouched; otherwise backs up and writes atomically |
| `ConfigManagers.ConfigManager.Update` | src/config/ConfigManager.cpp:132-154 | an error leaves the primary and the memory as they were (a failed write may have replaced the backup), success stores the candidate in both, every disk on the way is one a write passes through, and memory stays valid |
| `ConfigManagers.ConfigManager.ResetToDefaults` | src/config/ConfigManager.cpp:156-166 | the same for the defaults |
| `ConfigManagers.ConfigManager.Load` | src/config/ConfigManager.cpp:51-114 | a readable primary, else the backup, else the defaults, with the corrupt file set aside; memory is valid whatever the disk held; a recovered config can still be read from the disk if and only if the rename or the write succeeds, or the copy over the backup left it readable |
| `ConfigManagers.LostBackupRun` | src/config/ConfigManager.cpp:85-100 | the run: rename fails, the corrupt file is copied over the backup, the write fails; success is reported and neither file holds the config |
| `ConfigManagers.OldOrNewIff` | src/config/ConfigManager.cpp:132-154 | a crash anywhere in an update leaves the whole old or the whole new config if and only if every file that may be, or come back as, the primary at its start is synced and reads as one of the two |
| `ConfigManagers.CrashLeavesOldOrNew` | src/config/ConfigManager.cpp:132-154 | so it does from a disk that surely holds the old config |
| `ConfigManagers.UnsyncedDirectoryBreaksIt` | src/core/AtomicFile.cpp:55-61 | but not after a successful update whose directory sync failed, unless the config before that one is among the two |
| `ConfigManagers.StaleConfigRun` | src/core/AtomicFile.cpp:55-61 | the run: an update reports success without a directory sync, and a crash in the next brings back the config before both |
| `ConfigManagers.HistoryHolds` | src/config/ConfigManager.cpp:51-154 | over every history of updates, loads and crashes at any point of either, from a disk whose every possible primary is a whole config or, if allowed, absent: that stays so with the configs offered since, memory is valid, and every load yields one of those or the defaults it seeds |
| `ConfigManagers.FactoryHistory` | src/config/ConfigManager.cpp:51-154 | so from the factory on, with no file at all: every load yields the defaults or an offered config |
| `ConfigManagers.WriteHolds` | src/config/ConfigManager.cpp:118-130 | every disk a write passes through holds a config of the old set or the new one |
| `ConfigManagers.CrashHolds` | src/config/ConfigManager.cpp:51-81 | a crash keeps that, and one of them is read back whole, or there is none where that was possible |
| `ConfigManagers.SettledSurvives` | src/core/AtomicFile.cpp:49-61 | once the directory is synced a crash loses nothing |
| `Updaters.Machine.Backup` | src/updater/RollbackManager.cpp:11-17 | success means the backup equals the target, which is untouched; a missing target is an error |
| `Updaters.Machine.Restore` | src/updater/RollbackManager.cpp:19-25 | the copy's result, whole or cut short, and not synced; an error without a backup |
| `Updaters.Machine.Install` | src/updater/Installer.cpp:17-46 | exactly when it succeeds, from the system's replies; the whole payload or the old target at every step; synced only if the fsync, whose answer is ignored, succeeded, with the old entry able to come back |
| `Updaters.CrashWholeIff` | src/updater/UpdateManager.cpp:67-94 | a crash between any two steps of an update leaves the whole original or the whole payload if and only if that is certain when it begins, the payload's fsync does not fail unnoticed, and no rollback writes into the target |
| `Updaters.UnflushedUpdate` | src/updater/Installer.cpp:37-45 | the run: fsync fails, the update reports success, and a crash may leave bytes that are neither binary |
| `Updaters.UpdateManager.RunUpdate` | src/updater/UpdateManager.cpp:35-94 | the exact ending, and exactly the states of the files passed through; success means a genuine, compatible package installed whole and healthy; a package that is not genuine never shows; every error but a failed rollback means the original; after a rollback the target is one of the two if and only if the copy was not torn; exactly one ending is announced |
| `Updaters.WillingEnding` | src/updater/UpdateManager.cpp:67-94 | when every system call succeeds an accepted package is installed, or rolled back if unhealthy |
| `Versions.LessIsTotal` | src/updater/UpdateManager.cpp:60-61 | the version test compares by a total order on text |
| `Versions.LessIsTransitive` | src/updater/UpdateManager.cpp:60-61 | which is transitive |
| `Versions.TextOrderIff` | src/updater/UpdateManager.cpp:60-61 | text order of dotted versions is version order if and only if the first components that differ have texts of one length, or the shorter does not exceed the beginning of the longer |
| `Updaters.CompatibleIff` | src/updater/UpdateManager.cpp:60-65 | the compatibility test refuses exactly the older hardware under that same condition |
| `Updaters.RollbackWholeIff` | src/updater/RollbackManager.cpp:19-25 | a rollback's copy leaves the original or the payload if and only if it was not cut short inside the original |
| `Updaters.TornRollback` | src/updater/UpdateManager.cpp:75-86 | the run: a verified package, an unhealthy start and a copy that fails after one byte leave neither binary |
| `Updaters.TextualVersions` | src/updater/UpdateManager.cpp:60-65 | hardware 1.10 fails a minimum of 1.9 although it is newer |
| `Systems.Watchdog.PollOnce` | src/system/Watchdog.cpp:38-69 | the loop computes the poll, count by count and event by event |
| `Systems.PollFailing` | src/system/Watchdog.cpp:45-67 | a poll counts a uniquely named failing service once and times it out exactly at the threshold |
| `Systems.PollCountsFailing` | src/system/Watchdog.cpp:45-68 | the number returned is the number of failing services |
| `Systems.SystemManager.Move` | src/system/StateMachine.cpp:115-151 | moves and announces exactly legal changes; reports legality |
| `Systems.PathToPlaying` | src/system/StateMachine.cpp:43-95 | every state but ShuttingDown has a legal path to Playing |
| `Systems.ShutdownIsFinal` | src/system/StateMachine.cpp:43-95 | no legal path leaves ShuttingDown |
| `Systems.SystemManager.Handle` | src/system/SystemManager.cpp:12-112 | the event handler, as the model's reaction, its events appended to those published before |
| `Systems.ConnectedIsIdempotent` | src/system/SystemManager.cpp:23-50 | a repeated NetworkConnected does nothing, and one never moves a device past discovery |
| `Systems.SafeModeShowsIff` | src/system/SystemManager.cpp:139-144 | safe mode shows as Degraded through every continuation of its entry if and only if it was entered from one of six states, or by IdentityCorrupt outside ShuttingDown, and none of the six events that legally leave Degraded is delivered |
| `Systems.SafeModeAtBoot` | src/system/SystemManager.cpp:88-93 | the run: an invalid config at boot leaves safe mode on and the state Booting |
| `Systems.PlayingInSafeMode` | src/system/SystemManager.cpp:68-93 | the run: safe mode entered from Playing shows as Degraded, and after audio stops and starts the state is Playing with safe mode on |
| `Systems.RunKeepsSound` | src/system/SafeMode.h:30-35 | in every run safe mode is announced at most once and never left, a streak of three has entered it, and shutting down is final |
| `Systems.SafeModeReached` | src/system/SystemManager.cpp:102-105 | in any interleaving with 3 * threshold unbroken failing polls of a uniquely named service and no pairing, draining the bus leaves safe mode active, announced once |
| `Provisioning.NetworkManager.Connect` | src/network/NetworkManager.cpp:149-168 | publishes on a change or a periodic poll, with IpChanged only when the address changed |
| `Provisioning.NetworkManager.Disconnect` | src/network/NetworkManager.cpp:170-185 | edge-triggered unless forced |
| `Provisioning.NetworkManager.Refresh` | src/network/NetworkManager.cpp:127-144 | a hardware error keeps the last state |
| `Provisioning.NetworkManager.ConnectWifi` | src/network/NetworkManager.cpp:78-98 | a failed join is announced by force |
| `Provisioning.ProvisioningController.Apply` | src/pairing/ProvisioningController.cpp:71-82 | BLE follows Wi-Fi, the hotspot the uplink, its stop re-issued every time |
| `Provisioning.ProvisioningController.OnEvent` | src/pairing/ProvisioningController.cpp:42-50 | each event as the model's reaction |
| `Provisioning.PendingEventsSettle` | src/pairing/ProvisioningController.cpp:34-82 | in every run, delivering what is pending gives hotspot exactly without uplink and BLE exactly off Wi-Fi, for the network's current state |
| `Provisioning.DeliveryActuates` | src/pairing/ProvisioningController.cpp:84-98 | a delivered connection always stops the real hotspot; a disconnection starts it only when the flag was off |
| `Provisioning.PollHealsDrift` | src/pairing/ProvisioningController.cpp:75-82 | whatever drifted and whatever is pending, one poll with an uplink leaves the real hotspot down |
| `Provisioning.FailedJoinRaisesIff` | src/network/NetworkManager.cpp:170-184 | after a failed join, whatever is pending, the real hotspot ends up if and only if there had been an uplink or the pending events would have left it up |
| `Provisioning.FailedJoinLeavesHotspotDown` | src/network/NetworkManager.cpp:171-177 | from boot, a join that fails after taking the hotspot down leaves neither uplink nor hotspot |
| `Biquads.FilterIsDifference` | src/dsp/Biquad.h:71-76 | for all coefficients and inputs the two-register form outputs the difference equation |
| `Biquads.DivisorPositive` | src/dsp/Biquad.h:25-38 | the divisor a0 is positive for every gain the equalizer allows |
| `Biquads.PeakingKeepsDc` | src/dsp/Biquad.h:25-38 | numerator and denominator have equal sums: unit gain at zero frequency for every setting |
| `Biquads.PeakingGainAtCentre` | src/dsp/Biquad.h:25-38 | at the centre frequency the response is 10^(dB / 20), the gain asked for, with a non-zero denominator |
| `Stability.StableIffPolesInside` | src/dsp/Biquad.h:25-38 | however the denominator factors over the complex numbers, the stability conditions hold if and only if both poles lie inside the unit circle |
| `Stability.PolesExist` | src/dsp/Biquad.h:25-38 | and it factors so, given the square root of its discriminant's magnitude |
| `Stability.StableIff` | src/dsp/Biquad.h:25-38 | a band meets these conditions if and only if the sine of its centre angle is positive |
| `Stability.StableNeverGrows` | src/dsp/Biquad.h:71-76 | a stable filter's ringing energy, positive until both last outputs are zero, never grows once the input stops |
| `Responses.OutputIsRun` | src/dsp/Biquad.h:71-76 | the outputs the next rows speak of are those of the two-register filter, from reset, over any input followed by silence |
| `Responses.StableIsTame` | src/dsp/Biquad.h:71-76 | a stable filter stays within a bound on every finite input and the silence after it |
| `Responses.Unbounded` | src/dsp/Biquad.h:71-76 | a filter with a2 above one that is still ringing leaves every bound, although it hears nothing more |
| `Responses.TameIff` | src/dsp/Biquad.h:25-38 | a band stays within a bound on every input if and only if the sine of its centre angle is not negative or its gain is 0 dB |
| `Responses.TameBelowHalfIff` | src/dsp/Biquad.h:25-38 | below the sample rate: if and only if its centre is at most half the sample rate or its gain is 0 dB |
| `Responses.TopBandAt32kHz` | src/dsp/Equalizer.h:13-17 | the 20 kHz band at 32 kHz fails it for every gain but 0 dB |
| `Biquads.ZeroGainIsNeutral` | src/dsp/Biquad.h:25-38 | at 0 dB numerator and denominator agree |
| `Streams.RunConcat` | src/dsp/Equalizer.cpp:44-55 | a stream may be cut into blocks anywhere with the same result |
| `Equalizers.SeriesIsComposition` | src/dsp/Equalizer.cpp:49-51 | running the bands sample by sample is running them one after the other over the whole stream |
| `Equalizers.SeriesIsDifferenceEquations` | src/dsp/Equalizer.cpp:44-55 | from reset that is the composition of the bands' difference equations |
| `Equalizers.Equalizer.Process` | src/dsp/Equalizer.cpp:44-55 | in place, each channel becomes the cascade's output for that channel alone, its registers left where the stream ended |
| `Equalizers.Equalizer.SetGains` | src/dsp/Equalizer.cpp:27-30 | gains clamped to 10 dB either way and the filters rebuilt for them |
| `Equalizers.Equalizer.SetBandGain` | src/dsp/Equalizer.cpp:32-36 | one band, ignored outside the table |
| `Equalizers.Equalizer.Reset` | src/dsp/Equalizer.cpp:57-61 | every register of every channel at rest |
| `Equalizers.FlatEqualizerIsIdentity` | src/dsp/Equalizer.cpp:38-55 | all gains zero from reset: every stream passes unchanged |
| `Delays.Delay.SetDelayMs` | src/dsp/Delay.h:21-27 | silence of the whole frames that fit, negative delays as zero |
| `Delays.Delay.Process` | src/dsp/Delay.h:31-40 | what comes out followed by what stays is what was held followed by what came in |
| `Delays.DelayConserves` | src/dsp/Delay.h:31-40 | the same over any sequence of blocks |
| `Delays.DelayShifts` | src/dsp/Delay.h:21-40 | from silence the output is that many frames of zeros and then the input, each sample on its own channel, however cut |
| `Delays.Delay.Reset` | src/dsp/Delay.h:42-45 | the line is silence of the same length |

## Left out

- Floating-point rounding, and the accuracy of the trigonometric functions.
- QR: SVG output, version information for versions 7 and up and hence any ISO/IEC 18004 claim for
  them, penalty rules 2 to 4 (absent from the source), a decoder that finds the correction, and the 32-bit
  overflow of the bit count for texts of 2^28 bytes and more.
- Arrival detector: the confidence ratio, and recordings with noise or several echoes beyond the
  search's general contract.
- AudioBuffers.AudioBuffer.Push: counters other than the sequence arithmetic are unbounded, since
  2^64 packets never arrive; capacity 0 is excluded because the source would pop an empty queue.
- Playback.PlaybackManager.Step: the buffer is locked separately for each of the step's calls in the
  source; a packet pushed between two of them is not represented.
- Playback: the volume stage, the DSP hook, and StreamSync's smoothed statistics.
- CommandRouters.CommandRouter.Handle: logging is left out; history and executor are taken to be
  present.
- Commands: strings that are not valid UTF-8, which the JSON library refuses to dump; numbers written
  as floats beyond 64 bits, whose conversion is undefined in the source; infinities; the base64 layer, which
  encodes and decodes the same bytes.
- CommandGateways.CommandGateway.Compose: models the line that is sent; the transport, the reply, the
  per-speaker lock and the observer are left out.
- ConfigManagers.ConfigManager.Load: a crash between setting a corrupt file aside and writing its
  replacement, and concurrent updates; the code promises nothing there. A file that exists but cannot
  be opened counts as unreadable contents.
- AtomicFiles.FileSystem.AtomicWriteFile: a write that reports zero bytes for ever is cut off by the
  end of the script; file modes and directory creation are left out.
- Updaters.Machine.Install: file modes are left out; the staged and backup files after a crash are not
  followed, since no later step reads them.
- Systems.Watchdog.PollOnce: the recovery callback, the thread and its interval are left out; a
  threshold below 1 is excluded from the escalation theorem.
- Systems.SystemManager.Handle: enter hooks and stop(), which unsubscribes, are left out.
- Provisioning: start() is one step, so a network change between its probe and its first actuation is
  not represented; stop() is left out.
- EventBus: the condition variables' wake-ups; a waiting thread is one whose step is not enabled yet.
- Equalizers.Equalizer.Process: changing the sample rate or the number of channels in mid-stream.
- Hardware and operating-system layers, discovery, pairing and sealed boxes, web pages and routes,
  calibration, measurement orchestration, amplifier and registry: mostly easy members, or foreign
  calls.
