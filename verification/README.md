# Dorsche: a verified model

Dorsche moves Bluetooth audio between a Rust daemon, a Bluetooth stack and
the kernel. This project models the parts of it that are concurrent, stateful or
arithmetic, and proves what they are for.

* **The shared-memory ring** (`RingProtocol`, `RingFifo`, `RingWrap`, `RingPumps`).
  The lock-free single-producer/single-consumer ring is an interleaved step
  system. Every cursor load, every payload and descriptor byte, every cursor
  store, the eventfd signal and its drain is a step of its own, and a cursor load may
  return an outdated value. Every run is a run of a bounded FIFO queue whose
  contents are read off the raw slot bytes and the two wrapping cursors.
* **The ring over real bytes** (`RingLayout`, `RingMemory`, `CapturePeer`).
  The same operations as a class over one byte array, so that layout, alignment and
  bounds are proved; and the capture loop of the LE Audio smoke test on top of it.
* **The session actor** (`Types`, `Session`, `SessionHandles`). The configuration
  validators, the five-state session machine, its event stream, and any
  number of cloned handles calling it through a bounded inbox.
* **Stream transformers** (`Loopback`, `PcmCodec`). The delayed microphone loopback
  of the HFP smoke test and the interleaved PCM writer and decoder.
* **Three more protocols** (`AudioGraph`, `ScoAltsetting`, `FlossUnicast`). The
  four-actor audio graph, the mutex that serialises SCO transmit against USB
  alternate-setting changes, and starting LE unicast with rollback.

`Words`, `Cursors` and `Frames` hold machine words, wrapping cursors and the
64-byte frame descriptor. `dafny verify dfyconfig.toml` verifies everything.

## Where the code does not do what is promised

* A ring may be created with any slot count from two up, but it is a FIFO on all
  runs **if and only if** the slot count divides 2^64, that is, is a power of two
  (`RingWrap.AlwaysFifoIff`, `Cursors.SafeCountsArePowersOfTwo`).
  Otherwise a run that crosses the cursor wrap delivers the wrong frame
  (`RingWrap.WrapBreaks`). The theorems over runs therefore assume that the slot
  count divides 2^64 or that fewer than 2^64 frames have been committed; the rings
  the programs create have 8 or 16 slots and need no such assumption.
* `docs/WIRELESS_AUDIO_ARCHITECTURE.md:81` promises that a partial failure stops every
  stream that was started. The code keeps this exactly unless the streams started
  and a negotiated PCM configuration is then missing or unusable
  (`FlossUnicast.RolledBackIff`, with `FlossUnicast.UnreadableConfigLeavesStream`).
* `commit` publishes before it signals, so after a hard eventfd error the caller sees
  a failure although the frame is in the queue (`RingFifo.SignalErrorKeepsFrame`).
* The validator of a transferred ring header does not compare payload capacity and
  stride. Slots of an accepted header are inside the mapping, and disjoint, exactly
  when capacity plus descriptor is at most the stride (`RingLayout.AcceptedSlotsFitIff`,
  with `RingLayout.AcceptedHeaderOverflows`).
* Ring sizing cuts the interval to 32 bits, without loss exactly when rate x interval x
  channels x bits is below 2^32 x 8,000,000 (`Types.RingSizeIsLosslessIff`, with
  `Types.RingSizeCanTruncate`).
* How reads cut the microphone stream can be heard in the loopback, unless every cut
  keeps 16-bit samples whole or the gain is so close to 1.0 (at least 65535/65536)
  that it changes no sample (`Loopback.GainHearsCutsIff`, with `Loopback.CutSampleIsHeard`
  at the default gain of 0.35).

## Model

| member | source | states |
|---|---|---|
| `RingFifo.RunRefinesFifo` | src/wireless/data_plane.rs:235-455 | On every interleaving, each step is one action of a FIFO queue bounded by the slot count (or none), on the queue that the slot bytes and cursors denote. |
| `RingFifo.StepRefines` | src/wireless/data_plane.rs:235-455 | One step from any reachable-shaped state: publication appends the frame, release removes the oldest, every other step leaves the queue as it is, and the invariant is kept. |
| `RingFifo.RunDeliversPrefix` | src/wireless/data_plane.rs:295-387 | Frames delivered are, in order and byte for byte, a prefix of frames committed; at most the slot count are outstanding; `try_acquire` has never reported an error. |
| `RingFifo.QueueIsUnread` | src/wireless/data_plane.rs:415-421 | The queue read off the memory is the committed frames not yet released, never more than the slot count. |
| `RingFifo.QueuedFramesIsABound` | src/wireless/data_plane.rs:415-421 | `queued_frames`, from any head value the consumer may load, is exact for that value and never above the true occupancy. |
| `RingFifo.StaleLoadsAreConservative` | src/wireless/data_plane.rs:235-250 | An outdated cursor errs only towards "full" and "empty": a full ring is never written, an empty one never read. |
| `RingFifo.RunAccounts` | src/wireless/data_plane.rs:235-265 | The drop counter is, modulo 2^64, reservation attempts less commits, abandoned reservations and the one in progress. |
| `RingFifo.NoLostWakeup` | src/wireless/data_plane.rs:391-413 | A consumer that waits straight after seeing an empty ring is never asleep on a non-empty one unless a wakeup is pending or about to be sent, or the eventfd has failed hard; saturated counters included. |
| `RingFifo.SignalErrorKeepsFrame` | src/wireless/data_plane.rs:310-322 | A hard eventfd error leaves the frame published. |
| `RingProtocol.SlotExclusion` | src/wireless/data_plane.rs:235-293 | Between reserve and commit or abandon, the producer's slot is none of those unread or on lease to the consumer. |
| `RingProtocol.PokeKeepsReaders` | src/wireless/data_plane.rs:284-293 | A write into the reserved slot changes no unread frame and nothing the consumer has in hand. |
| `RingProtocol.StepCheck` | src/wireless/data_plane.rs:356-387 | The descriptor copied out byte by byte passes the ABI and length checks and yields a lease, whenever its bytes were read. |
| `RingProtocol.StepInv` | src/wireless/data_plane.rs:235-455 | Every producer or consumer step keeps the ring invariant. |
| `RingWrap.AlwaysFifoIff` | src/wireless/data_plane.rs:72-79 | The ring delivers a prefix on all runs if and only if its slot count divides 2^64. |
| `RingWrap.WrapBreaks` | src/wireless/data_plane.rs:130-132 | For every other slot count that `create` accepts, a reachable state has delivered the wrong frame. |
| `Cursors.WindowsDistinctIff` | src/wireless/data_plane.rs:72-79 | Every window of slot-count consecutive wrapping cursors uses distinct slots if and only if the count divides 2^64. |
| `Cursors.ThreeSlotsCollide` | src/wireless/data_plane.rs:130-132 | Three slots, which `create` accepts, collide at the wrap. |
| `Cursors.SafeCountsArePowersOfTwo` | src/wireless/data_plane.rs:130-132 | The safe slot counts are the powers of two. |
| `Frames.DecodeEncode` | src/wireless/types.rs:372-393 | A descriptor survives its 64-byte image whatever the padding holds. |
| `Frames.StampedIsAcceptable` | src/wireless/data_plane.rs:306-308 | A descriptor image passes the acquire checks exactly when it carries what `commit` stamps. |
| `RingPumps.PeerStreamArrives` | src/bin/dorsche_pipewire.rs:156-179 | With the peer pump as producer (its counter, its reads into the slot, its exits), a consumer that reads its leases in full receives a prefix of the peer byte stream, in PCM frames numbered 0, 1, 2, ... without a gap; the ring has all the pump took but at most one interval. |
| `RingPumps.HostStreamIsPrefix` | src/bin/dorsche_pipewire.rs:181-199 | The host stream is a prefix of the committed payloads joined, and the descriptor checked before each write is that of the frame due. |
| `RingLayout.CreateAcceptsIff` | src/wireless/data_plane.rs:130-201 | `create` succeeds exactly for two or more slots and a capacity from 1 to 2^32 - 128, and then the header is sound. |
| `RingLayout.PlannedSlots` | src/wireless/data_plane.rs:72-79 | Slots of a created ring are 64-byte aligned, inside the mapping, pairwise disjoint, each with room for descriptor and full payload; the header validates. |
| `RingLayout.AlignUp` | src/wireless/data_plane.rs:457-459 | The least multiple of 64 not below its argument. |
| `RingLayout.AcceptedSlotsFitIff` | src/wireless/data_plane.rs:461-480 | Slots of a header that passes validation are inside the mapping if and only if descriptor and payload capacity fit the stride, and frames of different slots share no byte if and only if they do. |
| `RingLayout.AcceptedHeaderOverflows` | src/wireless/data_plane.rs:461-480 | A concrete header that passes validation and whose second slot ends one byte outside the mapping. |
| `RingLayout.DecodeEncodeHeader` | src/wireless/data_plane.rs:18-35 | The five shape fields written at the start of the mapping read back unchanged. |
| `RingMemory.QueueKept` | src/wireless/data_plane.rs:284-293 | Changing bytes of the reserved slot only leaves every queued frame intact. |
| `RingMemory.QueueDrops` | src/wireless/data_plane.rs:445-455 | Advancing the tail removes exactly the first frame. |
| `RingMemory.AppendImage` | src/wireless/data_plane.rs:295-322 | Taking a filled slot into the window appends its frame. |
| `RingMemory.SameQueue` | src/wireless/data_plane.rs:72-79 | The queue read off the mapping is the queue of any state of the step system whose slots are the stretches of that mapping. |
| `RingMemory.SharedRing.constructor` | src/wireless/data_plane.rs:130-201 | A new ring is valid and empty, with cursors, drop counter and event counter at zero. |
| `RingMemory.SharedRing.Reattach` | src/wireless/data_plane.rs:211-231 | The shape decoded from the shared bytes after an endpoint transfer is the one `create` wrote and passes the header check, on any ring used through these operations; nothing changes. |
| `RingMemory.SharedRing.QueuedFrames` | src/wireless/data_plane.rs:415-421 | The number of queued frames. |
| `RingMemory.SharedRing.TryReserve` | src/wireless/data_plane.rs:235-250 | Fails exactly on a full ring and then counts one drop; the queue is unchanged either way. |
| `RingMemory.SharedRing.Store` | src/wireless/data_plane.rs:284-293 | Writing into a reservation changes exactly those bytes of that slot and no queued frame. |
| `RingMemory.SharedRing.Fill` | src/wireless/data_plane.rs:262 | A payload copied into the reservation lies at its front; no queued frame and no header byte changes. |
| `RingMemory.SharedRing.Commit` | src/wireless/data_plane.rs:295-322 | An oversized payload changes nothing; otherwise the slot holds the stamped descriptor and the payload, and the frame joins the queue at its end whether or not the signal fails. |
| `RingMemory.SharedRing.TryPushCopy` | src/wireless/data_plane.rs:254-265 | Full ring: one drop, queue unchanged. Oversized: queue and drops unchanged. Otherwise the payload is appended under the stamped descriptor, and the push is accepted exactly if the signal went through; only then does the event counter move. |
| `RingMemory.SharedRing.TryAcquire` | src/wireless/data_plane.rs:356-387 | Never reports corruption, finds nothing exactly on an empty queue, and otherwise leases the oldest frame. |
| `RingMemory.SharedRing.ReadPayload` | src/wireless/data_plane.rs:439-442 | The leased slice is the payload of the oldest frame. |
| `RingMemory.SharedRing.Release` | src/wireless/data_plane.rs:445-455 | Removes exactly the oldest frame. |
| `CapturePeer.RoundTrip` | src/bin/floss_le_audio_smoke.rs:198-227 | One turn on an empty ring: an interval too long for the slot panics, a short input fails, a hard signal error fails, and otherwise the interval is read back identical and the ring is empty again; no drops. |
| `CapturePeer.Capture` | src/bin/floss_le_audio_smoke.rs:180-241 | The loop never overruns, always sees the frame it just published and ends with zero drops; it cannot start exactly when the interval modulo 2^32 is no ring capacity, panics exactly when the interval is 2^32 bytes or more and there is a turn to run, stops at the first interval that is short or whose signal fails hard with all intervals before it captured, and otherwise captures them all. |
| `Types.IntervalIsExact` | src/wireless/types.rs:86-122 | An accepted interval satisfies bytes x 8,000,000 = rate x interval x channels x bits, is positive, and is rejected exactly when invalid or not whole; the overflow branch is dead. |
| `Types.RingSizeIsLosslessIff` | src/bin/dorsche_pipewire.rs:105-118 | The 32-bit ring size equals the interval if and only if rate x interval x channels x bits is below 2^32 x 8,000,000. |
| `Types.RingSizeIsLossless` | src/bin/dorsche_pipewire.rs:105-118 | In particular the 32-bit ring size loses nothing for intervals up to 2,796,202,666 microseconds. |
| `Types.RingSizeCanTruncate` | src/bin/dorsche_pipewire.rs:105-118 | A longer accepted interval of 2^32 + 128 bytes gets a ring capacity of 128. |
| `Types.ScanSubgroup` | src/wireless/types.rs:270-294 | The inner loop accepts a subgroup exactly when it is valid and repeats no BIS index met before, and keeps the table of indices true. |
| `Types.ValidateBroadcast` | src/wireless/types.rs:254-296 | The scan with its mutable table accepts exactly the declaratively valid broadcasts. |
| `Types.BroadcastIsSmall` | src/wireless/types.rs:254-296 | A valid broadcast has pairwise distinct BIS indices over all subgroups, hence at most 31 BISes and 31 subgroups. |
| `Types.PcmAcceptedIff` | src/wireless/types.rs:305-347 | Plain PCM is accepted exactly by the three software session types, with every field in its range. |
| `Types.LeAudioAcceptedIff` | src/wireless/types.rs:305-347 | A unicast configuration is accepted exactly by the four unicast session types, with group, PCM and every field of every ASE in range and each LC3 payload within Max SDU. |
| `Types.BroadcastAcceptedIff` | src/wireless/types.rs:305-347 | A broadcast configuration is accepted exactly by the two broadcast session types, with every field in range, each BIS on the codec of its subgroup and all BIS indices distinct. |
| `Session.ReplayReconstructs` | src/wireless/session.rs:145-252 | Replaying the emitted events alone gives state, configuration and position after every run of commands. |
| `Session.RefusedIffSilent` | src/wireless/session.rs:145-252 | A command is refused exactly when it emits nothing and is no query; a silent command changes nothing. |
| `Session.SucceedsIffAllowed` | src/wireless/session.rs:152-248 | After any run, a command succeeds exactly where the state diagram allows it, and the missing-configuration error arises exactly for Start without one. |
| `Session.NextSession` | src/wireless/session.rs:152-248 | After any run, an allowed command leads to its target (Start to Streaming, Suspend to Suspended, Configure to Configured with the new configuration, Stop to a fresh session, Close to Closed, a report to its position, all else kept), emits exactly its events in order, and is answered with success or the position. |
| `Session.RefusedCommand` | src/wireless/session.rs:152-248 | After any run, any other command changes and emits nothing and is refused for the one reason that applies. |
| `Session.PositionFromHistory` | src/wireless/session.rs:199-242 | The position is that of the last report accepted since the last accepted Stop, or the start position, read off the commands and replies alone. |
| `Session.QueryAnswers` | src/wireless/session.rs:240-242 | A position query after any run answers with that position. |
| `Session.StreamingReports` | src/wireless/session.rs:152-242 | Configure, Start and a position report bring any session to streaming with that configuration and position, and a query returns the position. |
| `Session.ReachableCoherent` | src/wireless/session.rs:152-210 | In every reachable state: idle exactly when there is no configuration (until Close), any configuration is valid for the session type, no configuration means a zero position, offloaded sessions have zero octets. |
| `Session.OffloadedConfigurations` | src/wireless/types.rs:305-347 | A reachable offloaded session holds only a unicast configuration with at least one ASE, each LC3 payload within Max SDU, or, for broadcast, only a broadcast of at most 31 BISes. |
| `Session.ClockIsMonotone` | src/wireless/session.rs:211-239 | Between two successful stops the presentation clock never runs backwards and host octet counts never shrink, across any commands. |
| `Session.SessionActor.Process` | src/wireless/session.rs:150-250 | One turn of the loop does to state, configuration, position and events what the session machine says, and replies likewise; `NextSession` and `RefusedCommand` say what that is. |
| `Session.SessionActor.Serve` | src/wireless/session.rs:145-252 | The loop answers commands in order up to the first Close, with the replies, events and state of the sequential machine; it ends closed exactly if that Close was served. |
| `SessionHandles.Linearizable` | src/wireless/session.rs:54-126 | On every interleaving of any number of handles, each call is received at most once, answered calls agree with one sequential session in receive order, that order respects real time, a command's events are queued before its reply, and nothing takes effect after Close. |
| `SessionHandles.ConsumerFollows` | src/wireless/session.rs:254-262 | The event consumer has a prefix of the sequential event stream, and once it has caught up with an actor between commands, its replay is the session. |
| `SessionHandles.StepInv` | src/wireless/session.rs:145-262 | Every step of handles, actor, channel or consumer keeps the linearization invariant. |
| `SessionHandles.CallCompletes` | src/wireless/session.rs:54-126 | From any state with a waiting actor and room for its events, a new call can run to its end; it returns the reply of the session machine, with the session moved and the events queued. |
| `Loopback.Playback` | src/bin/floss_hfp_smoke.rs:359-425 | For any received frames, the bytes written are the delay in zeros followed by the attenuated input; bytes played are bytes received plus delay; the drain is exactly 100 full frames per second of delay. |
| `Loopback.Relay` | src/bin/floss_hfp_smoke.rs:368-394 | Output so far plus what the delay line still owes is the initial silence plus the attenuated input. |
| `Loopback.AttenuateInPlace` | src/bin/floss_hfp_smoke.rs:372-379 | The gain is applied in place to every whole sample; an odd last byte is left alone. |
| `Loopback.SwapThrough` | src/bin/floss_hfp_smoke.rs:380-388 | Swapping a frame through the circular line shifts it through a queue of the line's length. |
| `Loopback.Drain` | src/bin/floss_hfp_smoke.rs:399-422 | The drain writes what the line owes, oldest first, in equal full frames. |
| `Loopback.ChunkingIsInvisibleIff` | src/bin/floss_hfp_smoke.rs:368-394 | For every stage and every list of read lengths: whatever the reads contain, the output is that of the uncut stream, if and only if every read followed by more data has even length or the stage changes nothing. |
| `Loopback.GainHearsCutsIff` | src/bin/floss_hfp_smoke.rs:372-379 | For every gain in (0, 1], cuts of given lengths are inaudible for all contents if and only if they are aligned or the gain is at least 65535/65536. |
| `Loopback.ScaledIsIdentityIff` | src/bin/floss_hfp_smoke.rs:372-379 | Rounding and clamping change no sample if and only if the gain is at least 65535/65536. |
| `Loopback.ScaledIsNearest` | src/bin/floss_hfp_smoke.rs:372-379 | The attenuated sample is within one half of the exact product, of the same sign and no larger than the sample. |
| `Loopback.CutSampleIsHeard` | src/bin/floss_hfp_smoke.rs:372-379 | At the default gain, the sample 1 read in two pieces is played as 1, and read whole as 0. |
| `Loopback.ExerciseLoopback` | src/bin/floss_hfp_smoke.rs:288-429 | Microphone to headset: what was recorded is the on-time reads up to the exact last turn, failure is exactly a failed read in that turn, and otherwise the bytes played are the delay in silence and then the forwarded reads, each attenuated; with whole samples, that is the recording attenuated, short of at most one read. |
| `Loopback.Capture` | src/bin/floss_hfp_smoke.rs:302-357 | Exactly the reads before the deadline are recorded, and forwarded in order with at most one read caught short; the loop ends exactly at its last turn; the sender is never missing when needed. |
| `Loopback.CaptureStats.Account` | src/bin/floss_hfp_smoke.rs:203-212 | Bytes and whole samples are counted; the peak is the largest magnitude met, and zero exactly while all samples are zero. |
| `PcmCodec.RoundTripIff` | src/bin/floss_le_audio_smoke.rs:245-259 | A sample survives encode and decode at 16, 24 or 32 bits exactly when it fits the width. |
| `PcmCodec.DecodeWritten` | src/bin/floss_le_audio_smoke.rs:245-259 | Decoding an interleaved buffer returns each in-range sample once per channel, for any number of frames and channels. |
| `PcmCodec.WriteSample` | src/bin/floss_le_audio_smoke.rs:170-178 | One sample is stored on every channel of its frame and no other byte changes. |
| `PcmCodec.WriteInterval` | src/bin/floss_le_audio_smoke.rs:138-160 | Writing all frames fills the interval buffer exactly with the interleaved encoding. |
| `PcmCodec.IntervalIsWholeFrames` | src/bin/floss_le_audio_smoke.rs:133-160 | The frames of an interval, computed by two divisions, are exact and fill its bytes with nothing left over. |
| `AudioGraph.EchoMirrorsPlayback` | src/topshim/actors.rs:216-268 | On every run the echoes taken are a prefix of the frames the hardware played, numbered from zero, each with its own receipt, lagging by at most the edge plus one; the microphone edge loses and reorders nothing. |
| `AudioGraph.PlaysUtterances` | src/topshim/actors.rs:216-268 | On every run, utterances are taken up in the order commanded, an initial part of each is popped, and these parts end to end are what the hardware has played, up to one frame in hand; a completed utterance was popped to its end, and the current one consists of its popped part and its rest. |
| `AudioGraph.EndsOnlyBy` | src/topshim/actors.rs:236-262 | An utterance stops being played only by running out of frames, by an interrupt or by the next command, and an interrupt leaves nothing current. |
| `AudioGraph.EndedForGood` | src/topshim/actors.rs:236-262 | Once an utterance has ended, no further frame of it is ever popped. |
| `AudioGraph.TickAdvances` | src/topshim/actors.rs:248-262 | Every tick submits the next frame of the current utterance, or ends it as complete. |
| `AudioGraph.InterruptRaisedIff` | src/topshim/actors.rs:170-205 | An interrupt is raised exactly by a microphone frame judged as speech, aligned with an echo, after a frame judged otherwise, while its edge has room; it carries that frame. |
| `AudioGraph.WaitsAreServed` | src/topshim/actors.rs:64-212 | In every reachable state, whoever is waited for has an enabled step of its own; it waits for nobody, because it makes no blocking send. |
| `AudioGraph.GraphComesToRest` | src/topshim/actors.rs:64-268 | For any positive capacities: between clock ticks and commands only a bounded number of steps is possible, and no step is possible exactly when nothing is in progress. |
| `AudioGraph.RestOrStep` | src/topshim/actors.rs:64-268 | Any reachable-shaped state that is not at rest has an enabled internal step. |
| `AudioGraph.InternalStepWorks` | src/topshim/actors.rs:64-268 | Every internal step uses up some of the remaining work. |
| `ScoAltsetting.LiveUrbsAreCurrent` | kernel/patches/0001-bluetooth-btusb-serialize-sco-tx-altsetting.patch:73-184 | On every interleaving, each SCO transmit URB handed to the controller and not given back is still anchored and was built under the altsetting now selected, which is not zero; the running flag implies a non-zero altsetting. |
| `ScoAltsetting.SubmitsAreCurrent` | kernel/patches/0001-bluetooth-btusb-serialize-sco-tx-altsetting.patch:73-112 | Every URB handed to `usb_submit_urb` is anchored, not yet live, and built under the current non-zero altsetting. |
| `ScoAltsetting.UnlockedKillStrands` | kernel/patches/0001-bluetooth-btusb-serialize-sco-tx-altsetting.patch:48-68 | Why stop and flush take the mutex: a kill without it between anchoring and submitting leaves a live URB that no later kill reaches. |
| `ScoAltsetting.InterfaceChangesOnEmptyAnchor` | kernel/patches/0001-bluetooth-btusb-serialize-sco-tx-altsetting.patch:131-184 | At every interface change, failed ones included, no transmit URB is live or anchored before or after, the running flag is down, and no other thread is inside the lock. |
| `ScoAltsetting.ZeroIsQuiet` | kernel/patches/0001-bluetooth-btusb-serialize-sco-tx-altsetting.patch:143-184 | At altsetting zero nothing is live or anchored, the running flag is down, and no thread is between the running test and the end of a submit. |
| `ScoAltsetting.SwitchTurnsOn` | kernel/patches/0001-bluetooth-btusb-serialize-sco-tx-altsetting.patch:143-184 | A switch to a non-zero altsetting whose receive URBs started gives the mutex back with that altsetting selected and the running flag up, unless a close intervened. |
| `ScoAltsetting.SubmitTransmits` | kernel/patches/0001-bluetooth-btusb-serialize-sco-tx-altsetting.patch:73-112 | A submit that finds the flag up, gets its URB and has it accepted ends with that URB live and current. |
| `ScoAltsetting.TransmissionIsReachable` | kernel/patches/0001-bluetooth-btusb-serialize-sco-tx-altsetting.patch:73-184 | At every non-zero altsetting a state with a live URB is reachable. |
| `FlossUnicast.RolledBackIff` | src/wireless/floss.rs:143-221 | A failed attempt has stopped every accepted start if and only if it did not fail on an unreadable PCM configuration after the streams had started. |
| `FlossUnicast.UnreadableConfigLeavesStream` | src/wireless/floss.rs:194-203 | A concrete daemon for which a started stream is left running. |
| `FlossUnicast.StartedIff` | src/wireless/floss.rs:143-221 | The start succeeds if and only if every request, the confirmation, the PCM reads and the connection did, and then each selected direction, and no other, comes with the configuration the daemon gave for it. |
| `FlossUnicast.FailedIff` | src/wireless/floss.rs:143-221 | Each failure stage arises exactly under its daemon answers. |
| `FlossUnicast.RequestsInOrder` | src/wireless/floss.rs:143-221 | On every outcome, requests go out in one order (group, metadata, host start, peer start, peer stop, host stop) and none twice. |
| `FlossUnicast.OnlyAskedFor` | src/wireless/floss.rs:143-221 | No request is sent for a direction that was not selected. |
| `FlossUnicast.StartedRequests` | src/wireless/floss.rs:143-221 | A successful start has sent exactly the requests of its directions, without a stop. |
| `FlossUnicast.StartThenStop` | src/wireless/floss.rs:243-263 | A started path followed by its stop has every accepted start undone, and each selected direction has its own configuration, with a usable interval. |
| `FlossUnicast.StartSoftwareUnicast` | src/wireless/floss.rs:143-221 | The code, with its two started flags, sends the requests and returns the result of the transaction that `RolledBackIff`, `StartedIff` and `FailedIff` are about. |
| `FlossUnicast.WaitStarted` | src/wireless/floss.rs:274-291 | The polling loop confirms exactly the poll histories that `Confirmed` accepts. |
| `FlossUnicast.ConfirmedIff` | src/wireless/floss.rs:274-291 | Confirmation means one round with both selected directions up, after rounds that were all readable and in time. |
| `FlossUnicast.StopPath` | src/wireless/floss.rs:243-263 | Both directions are asked to stop, peer first, even if the first request fails; the first error is the one returned. |

## Left out

- The hardware memory model: acquire and release are taken as ordering the stores before them; outdated values are modelled for cursor loads only, and draining the eventfd shows the consumer every signalled commit.
- `mmap`, memfd, seals, eventfd and descriptor duplication: a byte array, a counter and an outcome parameter stand for them; an endpoint transfer is the header check on the same ring.
- `RingMemory.SharedRing.Commit`: that the frame joins the queue is promised unless this commit wraps the cursor of a ring whose slot count does not divide 2^64, where it is false (`RingWrap.AlwaysFifoIff`); the slot contents are promised in all cases.
- `RingMemory.SharedRing.TryPushCopy`: the same condition on its successful outcome.
- The `SharedRing` class is one thread calling operations one after the other, with padding bytes zero and cursors and counters as fields beside the mapped bytes; interleaving and arbitrary padding are in `RingProtocol`.
- `RingLayout.AlignUp`: the bit mask of the source is written as subtracting the remainder; `usize` is 64 bits wide.
- `RingPumps.PeerStreamArrives`: the socket is the sequence of all bytes the peer will ever send, read in order one byte a step; the remaining descriptor fields are arbitrary.
- `RingFifo.NoLostWakeup`: safety only; no scheduling fairness is assumed, so it does not say when the consumer wakes up.
- `Loopback.Playback`: the gain is any map on 16-bit samples, which includes the rounded product; pacing and write errors are not modelled. The sample rate is a positive multiple of 100, as all codecs of the program have.
- `Loopback.Capture`: deadlines appear as ticks that obey one clock; the bounded channel between capture and playback appears as the outcome of each send.
- `Loopback.GainHearsCutsIff`: the product of sample and gain is exact; the source rounds it to a 32-bit float before rounding it to an integer.
- `Loopback.ExerciseLoopback`: playback runs over the finished list of forwarded reads, in the order of the channel, instead of alongside capture.
- `Loopback.CaptureStats.Account`: the float sum of squares is not modelled.
- `PcmCodec.RoundTripIff`: about the integer before it is divided to a float; tone synthesis is any list of samples.
- Floating point: tone, RMS and voice energy; the speech decision and the echo alignment test are arbitrary inputs of the audio graph.
- The audio graph's shutdown paths, and sequence-number overflow in its sink. Nothing is claimed about a barge-in stopping the utterance it was raised for, because the message carries no utterance.
- Liveness beyond the audio graph: bounded channels block senders in `SessionHandles` without a claim that they are eventually served.
- `Session.SessionActor.Process`: the event consumer is there to receive; the actor that stops because it is gone is in `SessionHandles`.
- Error message texts; errors are named constructors.
- `ScoAltsetting.LiveUrbsAreCurrent`: a failed interface change leaves any altsetting behind; receive-side URBs and the functions the patch does not show are not modelled beyond clearing the running flag, and a kill is one step.
- `FlossUnicast.WaitStarted`: clock and sleep appear as the list of poll rounds, each saying whether the deadline had passed.
- D-Bus proxies and property parsing, `src/wireless/pipewire.rs`, `src/wireless/provider.rs`, `src/topshim/frame.rs`, `src/bridge.rs`, `src/dorsche_core.cc`, argument parsing, scripts, configuration and kernel patch 0002: foreign interfaces, or branches that would only add easy members.
