# Waypad daemon: models and proofs

Waypad lets a phone control a Linux desktop and watch its screen. Its daemon is written in
Rust. This Dafny project models the small hand-written state machines and incremental parsers
of that daemon and proves what they keep over all inputs, all divisions of a byte pipe into
reads, and all interleavings of the tasks involved. `dafny verify dfyconfig.toml` checks it.

How the model is put together:

- **Splitters** (`AnnexB*`, `JpegStream`, `RtpStream`). Each reader is a class that updates its
  buffer in place; its methods are proved equal to a function of the bytes received. The
  theorems are about those functions: which divisions into reads give the same result as one
  big read, round trips against encoders written from ITU-T H.264 (section B.1 and section
  7.4.1.2.3), RFC 4571 (section 2) and RFC 3550 (sections 5.1 and 5.3.1), and which bytes get
  lost. Where chunk invariance does not hold for every input, an if-and-only-if says when it does.
- **Wire** (`Envelope`, `StreamSocket`, `StreamSocketRuns`, `H264Pump`, `H264EndToEnd`,
  `AudioPump`, `SharedWire`). The shared socket is a step system: waiting for the lock, giving up, every
  partial write, every failure is a step of its own. The two pumps are classes proved against
  functions of what happens on their pipes; a client-side decoder is the partner of each.
- **Tasks** (`SessionRegistry` with `ScreenManager`, `PointerWorker` with `PointerState`). One
  step per lock section and per spawn under a lock, one class method per lock section, and
  theorems over every run.
- **Input and protocol bookkeeping** (`VirtualInput`, `Gamepad`, `Scroll`, `Desktop`,
  `PairLimiter`, `SecureChannel`, `InviteUrl`).

`f64` values are exact reals, rounding is half away from zero. Pipes, the compositor, clocks,
write failures, UUIDs and lock timeouts are inputs of the model.

Where the code does less than its comments or a reader would expect, the model follows the code:

- The envelope writers say that an envelope is written whole once the lock is held
  (`src/screen.rs:82-89`). A write that times out may stop anywhere, the socket is not marked
  as broken, and later envelopes follow the torn one: `WireExactly`, `TearIsPermanent`.
- An idle flush of the Annex-B reader makes it skip whatever arrives before the next start
  code: `FlushConservation` says exactly which bytes are lost, `IdleExactly` that the units
  survive iff every flush falls between two of them. The overflow reset loses whole units
  depending on how the pipe was read; `ExactChunkInvariance` says exactly which resets are harmless.
- The JPEG reader forgets a trailing FF while no frame is open: `JpegStream.ChunkInvariance`.
- A `stop_stream` that lands between the two lock sections of attach does nothing, and the
  session then runs: `StopIsFinalUnlessAttaching`.
- A failed pointer dispatch whose error was handed to a mover is not reported to the click that
  follows: `ClickPosition`, `LostClick`.
- A shifted symbol released as its unshifted twin leaves left shift down: `PressThenRelease`.
- A finishing scroll call throws its remainder away: `FinishKeepsAll`.

## Model

| member | source | states |
|---|---|---|
| AnnexB.NalsExact | src/screen.rs:2035-2060 | The index holds every start code with its two classifying bytes exactly once, in order, and nothing else |
| AnnexB.FirstCut | src/screen.rs:1984-1995 | The boundary found is the first NAL unit after the first that starts an access unit; none is missed |
| AnnexB.NalsAfterCut | src/screen.rs:2112-2116 | After a unit is drained, the rebased index equals a fresh scan of what is left |
| AnnexB.SplitRest | src/screen.rs:2016-2022 | The bytes kept hold no complete access unit |
| AnnexB.SplitResumes | src/screen.rs:2016-2033 | Splitting can pause after any byte: units so far, then the units of the rest with the later bytes |
| AnnexBReader.AnnexBStreamReader.Push | src/screen.rs:2016-2033 | The in-place reader returns and keeps what the specification says, keeps index and scan cursor exact, and stays under the cap |
| AnnexBReader.AnnexBStreamReader.Scan | src/screen.rs:2035-2061 | Resuming four bytes before the end, with the skip after a match, completes the index to that of a full scan |
| AnnexBReader.AnnexBStreamReader.NextBoundary | src/screen.rs:2064-2075 | The single pass with its running slice flag finds exactly the first boundary |
| AnnexBReader.AnnexBStreamReader.HasPendingPicture | src/screen.rs:2077-2079 | True iff a slice is indexed |
| AnnexBReader.AnnexBStreamReader.FlushPending | src/screen.rs:2086-2092 | Releases everything from the first start code as one unit iff a slice is buffered, and empties the reader |
| AnnexBReader.AnnexBStreamReader.TakeAccessUnitBefore | src/screen.rs:2099-2122 | Unit data, key flag and parameter sets are those of the NAL units before the boundary; buffer, index and cursor are drained consistently |
| AnnexBReader.AnnexBStreamReader.Describe | src/screen.rs:2101-2110 | The key flag and the SPS/PPS bytes, in order, of the unit |
| AnnexBReader.AnnexBStreamReader.Rebase | src/screen.rs:2114-2116 | Subtracting the drained length turns the old index into the index of the new buffer |
| AnnexBRuns.ChunkInvariance | src/screen.rs:1998-2033 | While no overflow reset fires, any division into reads gives the units and the final buffer of one big read |
| AnnexBOverflow.ExactChunkInvariance | src/screen.rs:2023-2031 | With resets: reads give the result of an unbounded reader iff every reset fell on bytes without a start code and a unit completes later |
| AnnexBOverflow.RunAgainstUnbounded | src/screen.rs:2016-2033 | A reset never gains output, and a harmful one always loses some |
| AnnexBOverflow.ForgettingBytes | src/screen.rs:2023-2031 | Forgetting buffered bytes is invisible iff they held no start code and the rest yields a unit |
| AnnexBOverflow.JunkSkipped | src/screen.rs:2099-2112 | Bytes in front of the first start code change no unit |
| AnnexBRuns.RunKeepsCap | src/screen.rs:2023-2031 | No push leaves more than 8 MiB buffered |
| AnnexBRuns.ResetExactly | src/screen.rs:2016-2031 | A read leaves exactly 8 MiB or less as it is and forgets everything at one byte more, without losing the units of that read |
| AnnexBRuns.Conservation | src/screen.rs:2016-2122 | Over pushes, flushes and resets every byte is in a unit, buffered, skipped before a start code or reset away: once and in order |
| AnnexBRuns.LosslessExactly | src/screen.rs:2016-2122 | Units followed by the buffer reproduce the input iff nothing was skipped or reset |
| AnnexBRuns.ConservationOfReads | src/screen.rs:2016-2122 | Without flush and reset only the bytes before the first start code go missing |
| AnnexBRuns.SegmentConserved | src/screen.rs:2086-2122 | A flush with a picture pending hands out all bytes from the first start code on |
| AnnexBStretches.RunByStretches | src/screen.rs:2016-2122 | With any number of flushes, a run releases the stretches of input between the flushes that find a slice, one by one; other flushes are invisible |
| AnnexBStretches.FlushConservation | src/screen.rs:2086-2122 | For every sequence of reads and flushes without a reset: exactly the bytes before the first start code of each releasing stretch are lost, so bytes are conserved iff every such stretch begins with a start code |
| AnnexBIdle.IdleExactly | src/screen.rs:2081-2092 | Any reads and flushes over a serialised stream, then a last flush, return exactly the access units iff every flush that releases something falls between two units |
| AnnexBIdle.OneIdleFlush | src/screen.rs:2081-2085 | One flush in the middle of a stream changes nothing iff no slice is buffered there or the bytes so far end at a unit boundary |
| AnnexBIdle.PacedRoundTrip | src/screen.rs:1049-1051 | Groups of units, each read in any division and followed by an idle flush, come back exactly, with nothing left in the reader |
| AnnexBPrefix.IndexOfPrefix | src/screen.rs:2035-2060 | The beginning of a stream has indexed the second unit iff it reaches two bytes past its start code |
| AnnexBPrefix.PrefixUnits | src/screen.rs:2016-2033 | Of any beginning of a stream exactly the units whose successor has shown are returned, and the rest is kept |
| AnnexBPrefix.CapNeverHit | src/screen.rs:2023-2031 | If every unit and five more bytes fit the cap, no division into reads, with flushes between units, ever resets the reader |
| AnnexBPrefix.FeedUnits | src/screen.rs:2016-2122 | The beginning of such a stream, cut anyhow, with idle flushes between units: exactly the units shown by a flush or a successor are returned |
| AnnexBPrefix.AnyDivision | src/screen.rs:2016-2122 | The round trip from the input alone: units that fit the cap, any division into reads, one flush |
| AnnexBRoundTrip.NalsOfSerialised | src/screen.rs:2035-2060 | The index of a serialised NAL sequence is the sequence: no start code is emulated, none is missed |
| AnnexBRoundTrip.CutAfterUnit | src/screen.rs:1984-1995 | A well-formed access unit is cut right behind its last NAL unit, and nowhere inside |
| AnnexBRoundTrip.RoundTrip | src/screen.rs:2016-2122 | However the pipe cuts a serialised stream, push returns all access units but the last, and a flush returns that: bytes, key flag and parameter sets |
| AnnexBEdges.DelimiterOnlyUnit | src/screen.rs:1987 | A delimiter always cuts, so a unit may hold no slice |
| AnnexBEdges.SlicelessUnits | src/screen.rs:1984-1995 | A unit cut off without a slice was cut by a delimiter |
| AnnexBEdges.OverflowLosesUnit | src/screen.rs:2023-2031 | An oversized unit is returned or lost depending on where a read ends |
| AnnexBEdges.OversizedUnit | src/screen.rs:1955-1959 | Access units over the cap exist, so the case above is not empty |
| AnnexBEdges.FlushLosesAByte | src/screen.rs:2086-2122 | A flush inside a NAL unit loses the bytes that still belonged to it |
| JpegStream.JpegStreamReader.Push | src/screen.rs:1925-1944 | The in-place loop returns and keeps what the specification says |
| JpegStream.Find | src/screen.rs:1947-1953 | The first marker at or after the given offset, or none |
| JpegStream.CutSlices | src/screen.rs:1925-1944 | Frames are disjoint slices of the input in order, each from FF D8 to its first FF D9; the buffer is empty or starts with FF D8 |
| JpegStream.ChunkInvariance | src/screen.rs:1925-1944 | A division into reads gives the result of one big read iff no read ends between FF and D8 with no frame open |
| JpegStream.RunSize | src/screen.rs:1929-1931 | A division that splits an opening marker always loses bytes |
| JpegStream.SplitOpeningLosesFrame | src/screen.rs:1929-1931 | The smallest frame, cut after its first byte, is lost |
| JpegStream.AllFramesReturned | src/screen.rs:1925-1944 | Every frame of a stream, with anything in between that opens no frame, is returned in order and nothing else is, iff no read splits an opening marker |
| RtpStream.RtpStreamReader.Push | src/audio.rs:758-783 | The in-place loop returns the payloads of all whole frames, or the invalid length it stopped at |
| RtpStream.ChunkInvariance | src/audio.rs:758-783 | Whether a stream fails is independent of the reads; so are the packets without a bad length, and with one a prefix was returned |
| RtpStream.FramesResume | src/audio.rs:758-783 | Framing can pause after any byte |
| RtpStream.PayloadRoundTrip | src/audio.rs:788-812 | The payload of an encoded RTP packet comes back for any CSRC list, extension and padding |
| RtpStream.PayloadComplete | src/audio.rs:788-812 | Conversely every packet accepted is such an encoding, except a padding flag with count zero |
| RtpStream.RoundTrip | src/audio.rs:758-812 | However the pipe cuts an RFC 4571 stream of at most 8192-byte packets with payloads, exactly the payloads are returned |
| RtpStream.EveryFrameCounts | src/audio.rs:758-783 | Frames of 1 to 8192 arbitrary bytes are all cut, in order; an incomplete tail stays buffered and an invalid length ends the stream |
| RtpStream.LengthLimits | src/audio.rs:765-771 | A length field of 0 or more than 8192 is invalid, any other one waits for its bytes |
| RtpStream.PayloadOrNothing | src/audio.rs:788-812 | Short frames, other RTP versions and empty payloads are passed over, everything else is delivered |
| Envelopes.EnvelopeRoundTrip | src/screen.rs:1188-1196 | A length-prefix decoder reads an envelope back iff both lengths fit 32 bits |
| Envelopes.EnvelopeLayout | src/screen.rs:1188-1196 | Header length and payload length as four bytes each, most significant first, modulo 2^32, then header and payload |
| Envelopes.DecodeFrames | src/screen.rs:1188-1196 | A wire of whole envelopes decodes to those envelopes with nothing left |
| Envelopes.FramesOfDecoded | src/screen.rs:1188-1196 | Conversely whatever is decoded writes out to the same bytes |
| StreamSockets.StepInv | src/screen.rs:64-105 | Every step of every task keeps: one writer at a time, one handshake line first, wire equal to whole writes up to torn bytes |
| StreamSockets.Parts | src/screen.rs:64-105 | What each step adds to the completed bytes, to the write under way and to the wire |
| StreamSockets.MagicLines | src/screen.rs:32-33 | The two handshake lines, spelled out |
| StreamSocketRuns.WireExactly | src/screen.rs:64-105 | Over all interleavings, between writes, the client recovers the handshake line and exactly the finished envelopes iff no failed write left a byte |
| StreamSocketRuns.NoFailuresNoTear | src/screen.rs:64-105 | Without failed writes the wire is whole writes plus the prefix under way, at every moment |
| StreamSocketRuns.OneHandshake | src/screen.rs:64-75 | The handshake line is written once and never changes |
| StreamSocketRuns.OwnOrder | src/screen.rs:77-105 | From any state, a task's envelopes reach the wire in the order of its calls; only calls that gave up or failed are missing |
| StreamSocketRuns.Interleaving | src/audio.rs:447-470 | So each producer's envelopes on the wire are those it asked for, in order, less its own failures |
| StreamSocketRuns.TwoProducers | src/screen.rs:35-43 | Without failed writes the client reads one handshake line, then a merge of all video envelopes and of audio's, each in its own order, less the audio packets given up |
| StreamSocketRuns.CallEnds | src/screen.rs:77-105 | An uncontended call writes its envelope whole or leaves the accepted prefix |
| StreamSocketRuns.TearIsPermanent | src/screen.rs:77-83 | After a partial write the next envelope still goes out and the client never reads the log back |
| StreamSocketRuns.StreamSocket.SendMagic | src/screen.rs:64-75 | Writes the line at most once and sets the flag only when all of it went out |
| StreamSocketRuns.StreamSocket.TryWriteEnvelope | src/screen.rs:90-105 | Lock busy changes nothing; otherwise the call is the run of steps of the step system |
| SharedWire.Demultiplexed | src/screen.rs:35-43 | However video and audio envelopes are merged, their headers tell them apart, in order |
| SharedWire.ClientReceivesBoth | src/screen.rs:35-105 | Both pumps on one socket: the client reads one handshake line, then the forwarded units with their parameter sets and the audio packets sent, numbered from zero, out of any merge |
| H264Pump.WithheldUntilKey | src/screen.rs:1053-1059 | Only units before the first keyframe are withheld |
| H264Pump.DueNumbered | src/screen.rs:1060-1078 | Over any number of respawns video sequence numbers count up without gap or repeat |
| H264Pump.ReassembleEnvelopes | src/screen.rs:1060-1078 | A client that pairs each config with the frame right behind it gets every unit back with exactly its parameter sets |
| H264Pump.DueForwards | src/screen.rs:890-960 | Over all pipelines the client gets each pipeline's units from its first keyframe on |
| H264Pump.DueIsEnvelopes | src/screen.rs:890-960 | The envelopes of all pipelines are those of the forwarded units, numbered through |
| H264Pump.ReassemblePrefix | src/screen.rs:1060-1078 | A client cut off anywhere has a prefix of whole units |
| H264Pump.OpensOnKeyFrame | src/screen.rs:1016-1018 | In every pipeline the first frame sent is a keyframe, with its parameter sets, if any, right before it |
| H264Pump.PendingStep | src/screen.rs:1024-1080 | What is still due before a turn of the pump is what the turn sends followed by what is due after it |
| H264Pump.HandshakeFirst | src/screen.rs:1060 | A producer from its start sends the handshake line once and before everything else, then a prefix of the envelopes due, all of them iff nothing failed; later it adds no second line |
| H264Pump.ClientReads | src/screen.rs:890-977 | Handshake, respawns and failing writes included: the client of a whole producer run gets a prefix of the forwarded units, all of them when all went out |
| H264Pump.PipelineEnd | src/screen.rs:1024-1050 | A pipeline runs to its first read error, end of pipe, stop or late keyframe request, reads every byte before it and none after; early requests and a closed channel are ignored |
| H264Pump.VerdictFromTurns | src/screen.rs:1027-1045 | It is respawned iff it ends on a late request, and has failed iff it ends on a read error |
| H264Pump.PipelinesUsed | src/screen.rs:890-960 | How many pipelines are started, which of them count and whether the stream failed, from the turns alone |
| H264Pump.Producer.SendUnit | src/screen.rs:1060-1078 | Handshake unless already sent, config if there is one, and frame in this order, cut off where the socket fails, with counters in step |
| H264Pump.Producer.Forward | src/screen.rs:1053-1079 | The loop sends exactly the envelopes of the units from the keyframe on |
| H264Pump.Producer.PumpH264Stream | src/screen.rs:1001-1089 | One pipeline, whatever happens on its pipe, adds to the wire the handshake line if it is still due and the envelopes due, or the prefix the socket took |
| H264Pump.Producer.RunPortalStream | src/screen.rs:890-977 | The restart loop adds to the wire the handshake line if it is still due and the envelopes due over all pipelines, or the prefix the socket took; it succeeds iff all went out, the last pipeline ended cleanly and a frame was sent |
| H264EndToEnd.ClientGetsUnits | src/screen.rs:1001-1089 | One pipeline over the beginning of a stream, cut anyhow, with idle flushes between units: the client gets exactly the units shown, from the first keyframe on |
| H264EndToEnd.ClientGetsPipelines | src/screen.rs:890-960 | Over any number of respawns, each pipeline killed anywhere in its own stream, the client gets each one's shown units from its first keyframe on |
| H264EndToEnd.ClientGetsAll | src/screen.rs:1049-1051 | With a whole stream and an idle pause at its end the last unit arrives too |
| H264EndToEnd.NothingWithheld | src/screen.rs:1049-1051 | A pipeline that opens on an IDR and carries a whole stream: the client has exactly the encoder's units and bytes iff every flush fell between units |
| SessionRegistry.StepInv | src/screen.rs:336-647 | Every lock section, and every spawn under the lock, keeps: one place per session, unredeemed tokens distinct, handles and live producers matching |
| SessionRegistry.TokensAttachOnce | src/screen.rs:405-421 | No token is redeemed twice |
| SessionRegistry.NoEntryOutlivesItsTask | src/screen.rs:445-545 | A running entry's video task is not gone, although the task may run and end while attach still holds the lock |
| SessionRegistry.NoOrphans | src/screen.rs:445-452 | No reachable state has a running entry that nothing will remove |
| SessionRegistry.SpawningFirstOrphans | src/screen.rs:445-452 | Spawning before taking the lock would let a task that fails at once leave such an entry |
| SessionRegistry.OrphanStays | src/screen.rs:447-451 | Such an entry would stay until a stop call |
| SessionRegistry.OneAudioProducer | src/screen.rs:551-622 | A session never has two audio producers that are live and not told to stop |
| SessionRegistry.AudioEndsWithVideo | src/screen.rs:523-525 | With the video task gone and no stop call under way, every audio producer of the session was told to stop |
| SessionRegistry.AudioCommands | src/screen.rs:551-622 | Starting leaves exactly one producer sounding, unmuted, and keeps a live one; stopping leaves none |
| SessionRegistry.MutingCommands | src/screen.rs:626-647 | Muting sets the flag of what sounds in a running session as asked, starts and stops nothing, and changes nothing elsewhere or in a pending session |
| SessionRegistry.AudioStaysAtHome | src/screen.rs:551-647 | No audio command touches the producers or the entry of another session |
| SessionRegistry.AudioEndsAlone | src/screen.rs:567-573 | A producer that ends by itself no longer sounds, and all others do |
| SessionRegistry.PendingRemembers | src/screen.rs:583-617 | A start or stop of audio before the client attaches decides whether attaching starts it |
| SessionRegistry.StartThenTake | src/screen.rs:290-421 | A started session opens with its own token only, and with sound as it was started |
| SessionRegistry.RegisterOpens | src/screen.rs:452-545 | The second lock section of attach, undisturbed, opens the session, with sound, unmuted, iff asked for, and leaves other producers alone |
| SessionRegistry.StopIsFinalUnlessAttaching | src/screen.rs:377-421 | A stop ends a session for good iff it does not land between the lock sections of attach; there it changes nothing |
| ScreenManagers.ScreenManager.StartStream | src/screen.rs:337-346 | Inserting a pending session is its step |
| ScreenManagers.ScreenManager.FindPending | src/screen.rs:408-417 | The search returns a pending session with the token, or none has it |
| ScreenManagers.ScreenManager.TakePending | src/screen.rs:405-423 | The first lock section of attach is its step; a token that opens nothing changes nothing |
| ScreenManagers.ScreenManager.Register | src/screen.rs:452-545 | The second lock section of attach is the run of its steps: lock, spawn video, spawn audio if asked for, insert and unlock |
| ScreenManagers.ScreenManager.Deregister | src/screen.rs:523-525 | The last act of the video task is its step |
| ScreenManagers.ScreenManager.StopStream | src/screen.rs:377-381 | Removing the entry is its step |
| ScreenManagers.ScreenManager.StartAudio | src/screen.rs:565-599 | The audio start, unmuting a live producer, is its step; it errs iff the session is unknown |
| ScreenManagers.ScreenManager.StopAudio | src/screen.rs:602-622 | The audio stop is its step; it errs iff the session is unknown |
| ScreenManagers.ScreenManager.SetAudioMute | src/screen.rs:626-647 | Muting is its step: the handle's producer gets the flag as asked and no other changes; it errs iff the session is unknown or runs without audio |
| PointerStates.HyprlandState.PointerMove | src/input.rs:248-269 | A relative move updates the fields as specified and reports failure, no change or a queued target |
| PointerStates.HyprlandState.PointerMoveAbsolute | src/input.rs:271-293 | The same for an absolute move |
| PointerStates.HyprlandState.Take | src/input.rs:430-441 | The worker takes the queued target, or marks itself idle |
| PointerStates.HyprlandState.Complete | src/input.rs:448-462 | The cursor moves only on success; the error slot holds the last result |
| PointerStates.HyprlandState.Check | src/input.rs:401-409 | The flusher's look: error, idle or wait |
| PointerStates.RoundIsNearest | src/input.rs:255-256 | Rounding is to the nearest integer, halves away from zero |
| PointerStates.ClampExactly | src/input.rs:847-849 | Coordinates up to 100000 stay as they are, others go to the nearer end |
| PointerWorker.StepInv | src/input.rs:248-465 | Every step keeps the wake-up, position and order invariants |
| PointerWorker.QueuedIsServed | src/input.rs:266-268 | A queued target always has the worker on its way, a permit stored or a mover about to notify |
| PointerWorker.FlusherNeverStuck | src/input.rs:398-412 | While a flusher is inside `flush_pointer` some step can be taken |
| PointerWorker.Settles | src/input.rs:398-465 | Left alone the mailbox comes to rest within a bounded number of steps |
| PointerWorker.FlushReturns | src/input.rs:398-412 | So every flush returns, whichever steps are taken |
| PointerWorker.DispatchOrder | src/input.rs:420-465 | Dispatched targets are a subsequence of the requested ones that never misses the newest |
| PointerWorker.ClickPosition | src/input.rs:295-305 | When a flush returns Ok the cursor is at the rounded request iff no failed dispatch lost it, and a loss was reported before |
| PointerWorker.CoordinatesFollow | src/input.rs:248-293 | In every run the coordinates are where the accepted moves lead: the last absolute one plus the relative ones since, cut after each |
| PointerWorker.ClickLands | src/input.rs:295-305 | When a flush returns Ok and no target was lost, the cursor is within half a pixel of that |
| PointerWorker.ClickLandsAlways | src/input.rs:295-305 | Without a failed dispatch no move is refused, and every click lands where all the moves lead |
| PointerWorker.ErrorReachesOneCaller | src/input.rs:249-252 | The error of a failed dispatch goes to the next mover or flusher only; a refused move changes neither coordinates nor queue |
| PointerWorker.AlwaysInSync | src/input.rs:257-265 | Without a failed dispatch, queue, dispatch or cursor agree with the rounded coordinates at every moment |
| PointerWorker.MoveRepairs | src/input.rs:248-269 | The next accepted move repairs a lost position |
| PointerWorker.LostClick | src/input.rs:249-252 | A concrete run in which a click would land on the old position |
| AudioPump.NewestEight | src/audio.rs:436-472 | Of each batch only the newest eight packets get a chance, in order; the rest count as dropped |
| AudioPump.SendAllHeard | src/audio.rs:443-472 | The wire gains exactly the packets met unmuted, past the handshake and with an accepted write |
| AudioPump.PacketExactly | src/audio.rs:443-472 | Packet by packet: on the wire iff not muted, the stream open, the lock free, the write accepted and no earlier write failed; otherwise dropped and counted |
| AudioPump.QuietServe | src/audio.rs:444-450 | While the stream is muted or not open, over any restarts, nothing goes on the wire and no number is used |
| AudioPump.AudioAccounting | src/audio.rs:265-365 | Over all restarts envelopes count 0, 1, 2, ..., carry reader packets in order, and returned equals sent plus dropped iff no write failed |
| AudioPump.ThreeAttempts | src/audio.rs:285-364 | At most three pipelines are started |
| AudioPump.RoundsTried | src/audio.rs:285-364 | Which rounds the restart loop goes through, exactly: it goes on iff the encoder ended or failed, fewer than three were tried, a monitor is found and nobody asked to stop |
| AudioPump.PumpEnd | src/audio.rs:427-436 | How a pipeline ends, from its turns: stop signal, end of the encoder, and error are told apart |
| AudioPump.PumpReturns | src/audio.rs:427-437 | A pipeline that was stopped or ran out has handed over all packets of the bytes it read, as one stream |
| AudioPump.AudioProducer.SendBatch | src/audio.rs:436-472 | The batch loop does what the specification says, up to the first failed write |
| AudioPump.AudioProducer.PumpAudioStream | src/audio.rs:389-494 | One pipeline, reader included |
| AudioPump.AudioProducer.RunAudioStream | src/audio.rs:265-365 | The restart loop |
| PairLimiter.PairRateLimiter.Allow | src/server.rs:56-71 | Lets an attempt through iff fewer than the limit of that address's accepted ones lie within the last sixty seconds |
| PairLimiter.CountsForAMinute | src/server.rs:59-65 | An accepted attempt counts 60 seconds, inclusive to the nanosecond, for its own address |
| PairLimiter.AtMostLimit | src/server.rs:56-71 | Every closed sixty-second window holds at most the limit of accepted attempts of an address |
| PairLimiter.RejectedLeavesNoTrace | src/server.rs:66-68 | Removing a rejected attempt changes no other outcome |
| PairLimiter.AddressesIndependent | src/server.rs:58 | An address fares as if it were alone |
| SecureChannels.NonceReuse | src/crypto.rs:260-265 | Two messages share a nonce iff their counters agree modulo 2^64 |
| SecureChannels.DigitsOfBigEndian | src/crypto.rs:260-265 | Counters are written in network order |
| SecureChannels.AcceptedExactly | src/crypto.rs:164-186 | A line is accepted iff it has the next sequence number, this key, the nonce of prefix and number, the number as additional data, and a message that parses |
| SecureChannels.LoopEnds | src/server.rs:171-239 | On any wire and with any replies: the loop acts on the first lines and ends at the first that is not received or behind the first reply that fails |
| SecureChannels.OrderedDelivery | src/crypto.rs:164-186 | On a wire that may drop, repeat, reorder or alter lines but not forge, the loop acts on a prefix of the messages sent, each once |
| SecureChannels.ExactDelivery | src/server.rs:171-172 | While replies get through it acts on exactly the untouched beginning of the wire, and runs on iff all of it is untouched |
| SecureChannels.FaithfulWire | src/crypto.rs:164-205 | An untouched wire delivers everything |
| SecureChannels.CommandsNeedGrant | src/server.rs:206-226 | Exactly the commands after a granted pair or auth request are executed, on any wire |
| SecureChannels.SkippingErrorsLosesOrder | src/crypto.rs:172-183 | A loop that went on after an error would act out of order, because the counter moves before decryption |
| SecureChannels.SecureChannel.Send | src/crypto.rs:188-205 | The lines written are the genuine frames of the messages, counter in step |
| SecureChannels.SecureChannel.Recv | src/crypto.rs:164-186 | The receive rule with its counter |
| SecureChannels.HandleConnection | src/server.rs:171-239 | The loop acts and executes as specified, answers every message it acts on with its own reply, in order, and returns at the first error |
| VirtualInput.NothingElseHeld | src/uinput.rs:294-387 | In every run the keys down are among the recorded ones and left shift, the buttons down are the recorded ones |
| VirtualInput.ReleaseAllReleases | src/uinput.rs:389-407 | After any run a release leaves no key and no button down |
| VirtualInput.RecordedKeysAreHeld | src/uinput.rs:345-363 | Without typed text the recorded keys are exactly those down, shift aside |
| VirtualInput.ShiftExactly | src/uinput.rs:345-407 | In every run left shift is down iff the last action that touched it was a press |
| VirtualInput.PressThenRelease | src/uinput.rs:345-363 | Press and release of one key leave nothing down iff a shifted press is not released unshifted |
| VirtualInput.TextEventsHeld | src/uinput.rs:367-387 | Typed text leaves nothing down and lifts the keys it used |
| VirtualInput.TextStrokes | src/uinput.rs:367-387 | What a reader of the device sees of typed text: the characters in order, each down and up in a report of its own, and exactly which ones shifted |
| VirtualInput.TypedAsMapped | src/uinput.rs:373-384 | With left shift up that is the mapping itself, character by character |
| VirtualInput.KeyStrokes | src/uinput.rs:345-363 | A key event is seen once, in a report of its own, a shifted press behind its shift |
| VirtualInput.ButtonOnce | src/uinput.rs:294-312 | A repeated button state writes nothing, a new one exactly one report |
| VirtualInput.AlwaysReported | src/uinput.rs:294-407 | After every action of any run all that was written has been reported |
| VirtualInput.ButtonEndsAsAsked | src/uinput.rs:294-312 | A button ends as asked and no other changes |
| VirtualInput.VirtualDevices.PointerButton | src/uinput.rs:294-312 | Repeated states are suppressed; otherwise set and device change together |
| VirtualInput.VirtualDevices.KeyChange | src/uinput.rs:345-363 | Shift goes down before and up after a shifted key; an unmapped keysym is an error without effect |
| VirtualInput.VirtualDevices.Text | src/uinput.rs:367-387 | Types all characters in order, or none if one has no key |
| VirtualInput.VirtualDevices.ReleaseAll | src/uinput.rs:389-407 | Walks both sets in any order, then lifts shift |
| Gamepad.SameDevice | src/gamepad.rs:216-281 | Every button and axis ends as it would without deduplication |
| Gamepad.RunInv | src/gamepad.rs:216-281 | Stored values are the last written, axes stay in range, a flush leaves nothing behind |
| Gamepad.ResetRests | src/gamepad.rs:257-268 | A reset puts every button up and every axis at rest, in one report |
| Gamepad.ScaleIsMonotone | src/gamepad.rs:322-331 | Scaling keeps order and range, meets both ends and rests at zero |
| Gamepad.ScaleIsNearest | src/gamepad.rs:322-331 | A stick is within half a unit of 32767 times its value, a trigger of 32767 times its pressure, a hat is the nearest integer |
| Gamepad.LinuxCodes | src/gamepad.rs:15-77 | Every name has its code of Linux's input layer |
| Gamepad.NamesHaveOwnCodes | src/gamepad.rs:46-77 | No two names share a code |
| Gamepad.DeviceFollows | src/gamepad.rs:216-246 | After an accepted action the device shows what was asked and all else as before; only new values are written, in one report, and a button is flushed at once |
| Gamepad.VirtualGamepadBackend.Button | src/gamepad.rs:216-230 | A new value is stored, written, synced and flushed; a stored one is skipped; an unknown name is an error |
| Gamepad.VirtualGamepadBackend.Axis | src/gamepad.rs:232-246 | The same for an axis, with the range check |
| Gamepad.VirtualGamepadBackend.Reset | src/gamepad.rs:257-268 | Every button and axis is written and stored at rest |
| Scroll.BackendsAgree | src/uinput.rs:478-490 | The two backends' accumulators agree on every input |
| Scroll.GestureConserves | src/input.rs:490-500 | Over any gesture pixels equal 24 times steps plus remainder plus what finishing calls rounded away |
| Scroll.GestureKeepsAll | src/input.rs:497-499 | Without a finish nothing is lost and less than a step is held back |
| Scroll.ChoppingInvisible | src/input.rs:497-499 | However chopped, the steps are the truncated total iff the gesture does not overshoot: no running total reached the next step without a later one falling back to this one |
| Scroll.StepsClimb | src/input.rs:497-499 | More than m steps are taken iff some running total reached step m + 1 and none since fell to step m |
| Scroll.RemainderSide | src/input.rs:497-499 | The same in terms of the result: steps and remainder are not on opposite sides of zero |
| Scroll.OneDirection | src/input.rs:497-499 | A one-way gesture scrolls the truncated total however it is chopped |
| Scroll.FinishKeepsAll | src/input.rs:492-496 | A finishing call loses nothing iff at most three pixels or exactly one step are pending |
| Scroll.FinishIsOneStep | src/input.rs:491-496 | Finishing with more than three pixels pending scrolls one step that way, with less nothing |
| Scroll.DirectionMatters | src/input.rs:497-499 | A change of direction inside a gesture shows |
| Scroll.ScrollBackend.ScrollUinput | src/uinput.rs:314-343 | Wheel events carry exactly the detents taken, both axes in one report, and the high-resolution events 120 units for each |
| Scroll.ScrollBackend.ScrollHyprland | src/input.rs:307-339 | At most twelve steps per axis go out, vertical first, up to the first shortcut that fails; a failed flush changes nothing |
| Scroll.TowardsExactly | src/input.rs:317-337 | Up to twelve steps go out as they are, more are cut to twelve in the same direction |
| Desktop.HyprlandDesktopBounds | src/uinput.rs:151-188 | The bounds are those of the least box around all monitors, cut to 32 bits; none iff an entry is malformed or the box is empty |
| Desktop.OneBox | src/uinput.rs:162-181 | Only one box holds all monitors and touches one with every side, so the bounds are determined |
| Desktop.CutsExactly | src/uinput.rs:182-187 | The numbers reported are those of the box iff they fit 32 bits |
| Desktop.EdgesAreClose | src/uinput.rs:170-181 | Logical sizes and edges are right to half a pixel as long as they fit 64 bits; scales below a tenth count as a tenth |
| Desktop.WrapsModulo | src/uinput.rs:178-179 | A sum that does not fit 64 bits wraps |
| Desktop.CutsModulo | src/uinput.rs:183-186 | The 32-bit casts keep the low bits |
| Desktop.ToAbsMonotone | src/uinput.rs:134-149 | The absolute mapping keeps order and range |
| Desktop.ToAbsHalfStep | src/uinput.rs:134-149 | Mapping back misses by at most half a device step |
| InviteUrl.DecodeInvertsEncode | src/main.rs:293-303 | Percent-decoding gives every byte string back |
| InviteUrl.EncodedAlphabet | src/main.rs:293-303 | Encoded values hold unreserved characters and percent signs only |
| InviteUrl.EncodesByteWise | src/main.rs:293-303 | Unreserved characters stand for themselves, any other byte becomes a percent sign and two uppercase digits |
| InviteUrl.LinkRoundTrip | src/main.rs:234-242 | Splitting and decoding a link recovers its query list |
| InviteUrl.InviteRecovered | src/main.rs:206-243 | The whole query list of an invite is recovered |
| InviteUrl.InviteFields | src/main.rs:206-243 | The link starts with its scheme and every field is found under its own name |

## Left out

- StreamSockets.StepInv: `tokio`'s lock queue is modelled as any waiting task taking a free lock, without fairness; a failed write ends its call, and what the connection does next is not followed.
- StreamSocketRuns.WireExactly: the client side needs header and payload below 4 GiB, because the length fields are cut to 32 bits; `EnvelopeRoundTrip` is exact about that.
- SharedWire.ClientReceivesBoth: the JSON text of the headers is a codec that reads back what it wrote; which envelopes of each pump were written is what the socket's log says of its task.
- H264Pump.Producer.PumpH264Stream: geometry and timestamp of the envelope headers, the throughput counters and `u64` overflow of the sequence number are not modelled.
- H264EndToEnd.ClientGetsUnits: for flushes that fall inside a unit the client's units are those of the torn stretches, see `RunByStretches`; that the encoder writes one unit per pipe write, so that they do not, is an assumption of the source.
- AnnexBRuns.LosslessExactly: its condition is what the run itself skipped and reset; `FlushConservation` reads it off the input for all runs without a reset, and with resets it stays the run's tally.
- AnnexBStretches.FlushConservation: for runs with an overflow reset `Conservation` accounts for every byte, and `ExactChunkInvariance` covers reads.
- RtpStream.PayloadComplete: a packet with the padding flag and a padding count of zero is accepted by the code and is not an encoding of RFC 3550 section 5.1, so the converse excludes it.
- SessionRegistry.StepInv: identifiers and tokens are taken to be fresh, a panicking video task, which would leave its entry behind, is not modelled, and stopping audio is one step although the lock is held while the producer winds down; status replies are left out.
- ScreenManagers.ScreenManager.StopStream: waiting for the video task and aborting it after two seconds is the separate step `StopReturns` of the registry.
- ScreenManagers.ScreenManager.Register: shows the section undisturbed; what other tasks do in between is in the step system.
- PointerWorker.StepInv: one flusher at a time, as the input lock guarantees; whether a failed `movecursor` moved the real cursor is unknown to the daemon and to the model.
- PointerStates.HyprlandState.PointerMove: coordinates are exact reals, without NaN or rounding error.
- PairLimiter.PairRateLimiter.Allow: the clock is a parameter that does not go back, as `Instant` guarantees.
- SecureChannels.OrderedDelivery: AES-GCM is an ideal cipher, key agreement, signatures, base64 and JSON are not part of this model, and counters are assumed to stay below 2^64; `NonceReuse` says what happens beyond.
- AudioPump.AudioAccounting: metrics are shared atomics in the source and plain counters here; the mute flag, the handshake flag and the socket's answer at each packet are inputs, and the wait for the handshake before the first attempt is left out.
- VirtualInput.NothingElseHeld: failing device writes are left out; keysym and character tables are arbitrary mappings.
- VirtualInput.VirtualDevices.PointerButton: a device write that fails after the set was updated is not modelled; every write succeeds.
- VirtualInput.VirtualDevices.KeyChange: a device write that fails after the set was updated is not modelled; every write succeeds.
- VirtualInput.VirtualDevices.Text: a device write that fails in the middle of the text is not modelled; every write succeeds.
- VirtualInput.VirtualDevices.ReleaseAll: a device write that fails during the release is not modelled; every write succeeds.
- Gamepad.SameDevice: failing device writes and the creation of the device are left out.
- Gamepad.VirtualGamepadBackend.Button: a device write that fails after the value was stored is not modelled; every write succeeds.
- Gamepad.VirtualGamepadBackend.Axis: a device write that fails after the value was stored is not modelled; every write succeeds.
- Gamepad.VirtualGamepadBackend.Reset: a device write that fails during the reset is not modelled; every write succeeds.
- Scroll.GestureConserves: `f64` rounding and the saturating cast to `i32` are left out.
- Desktop.HyprlandDesktopBounds: sizes are divided as exact reals, and reading the monitor list is an input.
- InviteUrl.InviteRecovered: numbers and flags enter as the text they are printed as.
- GStreamer, ffmpeg and grim processes, portal and D-Bus calls, uinput ioctls: foreign effects, present only as inputs or event logs.
- The grim, X11 and JPEG pumps: they forward frames without the keyframe, config and restart rules that make the H.264 pump hard.
- Capability detection, configuration, discovery, trusted devices, pairing codes, signal client and system control: mostly settled by reading a branch.
- Relative pointer motion of the uinput backend: each call is rounded on its own, nothing is accumulated.
