# Neato XV-11 LIDAR driver: frame decoding and run loop

A Dafny model of the decode path of the `neato_xv11` driver: the 15-bit
frame checksum (`calc_checksum`), the 22-byte frame decoder (`parse_packet`),
the byte-level synchronisation (`sync`) and the command / synchronise / read /
decode / send loop of `run`.

Layout, one module per concern:

| file | module | models |
|---|---|---|
| `wrappers.dfy` | `Wrappers` | Rust's `Option` and `Result` |
| `bytes.dfy` | `Bytes` | `u8` and little-endian 16-bit words |
| `types.dfy` | `Errors`, `Data`, `Messages` | `LidarReadingError`, `LidarDriverError`, `LidarReading`, `LidarPacket`, `LidarDriverCommand`, `LidarDriverMessage` |
| `checksum.dfy` | `Checksum` | `calc_checksum` |
| `packet.dfy` | `Packet` | `parse_packet`, plus the inverse frame encoder |
| `sync.dfy` | `Synchronization` | `sync` |
| `driver.dfy` | `Driver` | the loop of `run` as a step function |
| `run_properties.dfy` | `RunProperties` | properties of whole runs |
| `vectors.dfy` | `TestVectors` | the frames of the unit tests |

How the I/O is modelled:

- The serial port is the finite byte sequence it will still deliver. A
  `read_exact` of n bytes succeeds when n bytes remain and fails otherwise
  (timeout or I/O error). A failure after k bytes is the same as a stream
  that ends after k bytes.
- The command channel is a sequence of `try_recv` outcomes
  (`Received(command)`, `Empty`, `Disconnected`), one per loop iteration.
  When the outcomes run out, the loop has not finished yet. The result then
  describes the first iterations of a run (`stopped` / `returned` is false).
- The message channel is the sequence of messages sent successfully, that
  is, handed to `tx.send` while the receiver was still alive. `send` only
  queues a message, so the consumer may drop its receiver before reading
  some of them. The channel also has an optional capacity: the receiver is
  dropped after that many successful sends, and every later send fails.
  Below, "the consumer received" and "the consumer accepts" mean "was sent
  successfully" and "the receiver is still alive".
- Opening the port, setting its timeout and configuring it are one input,
  `PortSetup`. A failed step sends its error once and `run` returns without
  `Shutdown`, as the source does.
- The loop starts unsynchronised and not paused (`needs_sync = true`,
  `is_paused = false`).

Where the code and its documentation differ, the model follows the code:

- The comment above `run` says the speed is big-endian. `parse_packet` reads it
  little-endian (`buffer[2] | buffer[3] << 8`), and so does the model.
- For an invalid-data reading the stored distance is the raw field, flag bits
  included. Only the signal-strength flag is cleared.

## Model

| member | source | states |
|---|---|---|
| Bytes.LittleEndian16 | neato_xv11/src/driver.rs:36-38 | a word built as `(msb << 8) \| lsb` is below 0x10000, and its low and high bytes give back `lsb` and `msb` |
| Checksum.ShiftAdd32 | neato_xv11/src/driver.rs:39-40 | one `u32` shift-and-add step is below 2^32, and equals the unbounded `2 * acc + word` whenever that fits in 32 bits |
| Checksum.Fold15 | neato_xv11/src/driver.rs:43-46 | folding the accumulator to 15 bits gives a value below 0x8000, and leaves a value that already fits unchanged |
| Checksum.AccumulatorNeverWraps | neato_xv11/src/driver.rs:32-41 | over the 10 words the `u32` shift-and-add accumulator stays below 2^26, so the wrapping `u32` fold equals the unbounded fold |
| Checksum.ChecksumOf | neato_xv11/src/driver.rs:31-49 | the checksum of 20 bytes is a 15-bit value |
| Checksum.CalcChecksum | neato_xv11/src/driver.rs:31-49 | the loop over 10 little-endian words in `u32` arithmetic computes the checksum, and the result is below 0x8000 |
| Packet.DecodeReading | neato_xv11/src/driver.rs:97-108 | bit 15 set: `InvalidDataError(low byte)` and the raw distance is kept; otherwise bit 14 set: `SignalStrengthWarning` and the distance has bit 14 cleared; otherwise no error and the distance is unchanged; index and quality are always kept |
| Packet.ReadingAt | neato_xv11/src/driver.rs:83-108 | sub-reading i of frame k has index `4k + i`, its raw distance and quality are the little-endian words at bytes `4i+4` and `4i+6`, and it is well formed |
| Packet.RawDistanceOfDecode | neato_xv11/src/driver.rs:97-108 | the raw distance field can be rebuilt from every decoded reading (the flag handling loses nothing), and a decoded reading is well formed |
| Packet.DecodeOfRawDistance | neato_xv11/src/driver.rs:97-108 | every well-formed reading is the decoding of its own raw fields |
| Packet.ParsePacket | neato_xv11/src/driver.rs:55-112 | a checksum error happens exactly when the computed checksum differs from the little-endian checksum bytes, and it carries `buffer[1] - 0xA0`; otherwise there are exactly 4 well-formed readings, reading i has index `4 * (buffer[1] - 0xA0) + i`, its quality and raw distance are the little-endian fields at bytes `4i+4..4i+7`, the speed is bytes 2 and 3 little-endian, and with a valid frame number every index is below 360 |
| Packet.ParsedReadings | neato_xv11/src/driver.rs:55-112 | a frame whose checksum matches decodes to its four sub-readings in order, with the little-endian speed |
| Packet.ParseOfEncode | neato_xv11/src/driver.rs:55-112 | decoding the encoding of a well-formed packet gives back that packet |
| Packet.EncodeOfParse | neato_xv11/src/driver.rs:55-112 | a frame that starts with 0xFA and passes the checksum is the encoding of the packet decoded from it |
| TestVectors.GoodFrameChecksum | neato_xv11/src/test.rs:6-22 | the checksum of the test frame's first 20 bytes is 0x6BF6 |
| TestVectors.GoodFrameReadings | neato_xv11/src/test.rs:6-7 | the four sub-readings of the test frame are clean readings 68..71 with distances 228, 226, 224, 223 |
| TestVectors.GoodFrameDecodes | neato_xv11/src/test.rs:24-30 | the test frame decodes to a packet, with raw speed 0x49E3 |
| TestVectors.BadChecksumFrameRejected | neato_xv11/src/test.rs:32-40 | the frame with checksum bytes 0xA6, 0xCE is rejected with `Checksum(0x11)` |
| TestVectors.DiscardedBytesAreNotRescanned | neato_xv11/src/driver.rs:166-174 | a good frame starting two bytes after a marker with an invalid frame number is skipped, although `sync` finds it on its own |
| Synchronization.HeaderOk | neato_xv11/src/driver.rs:172-175 | a header is good exactly when byte 0 is 0xFA and byte 1 is in 0xA0..0xF9, and then the frame's four reading indices are below 360 |
| Synchronization.SyncFailsWithoutMarker | neato_xv11/src/driver.rs:152-164 | on a stream that holds no 0xFA, `sync` reads every byte and ends in a read failure |
| Synchronization.Sync | neato_xv11/src/driver.rs:152-178 | on success the frame is 22 bytes, starts with 0xFA, has a frame number in 0xA0..0xF9, and it and the remaining stream are a suffix of the input |
| Synchronization.SyncLoop | neato_xv11/src/driver.rs:152-178 | the byte-at-a-time loop of `sync` returns the same frame, remaining stream or read failure as the recursive definition |
| Synchronization.SyncSkipsNoise | neato_xv11/src/driver.rs:157-164 | bytes other than 0xFA before a frame with a good header are skipped one at a time, and that frame is found |
| Synchronization.SyncDiscardsBadFrame | neato_xv11/src/driver.rs:166-174 | a marker followed by an invalid frame number discards all 22 bytes read, and scanning resumes after them |
| Driver.ParsedFrameIsLoopMessage | neato_xv11/src/driver.rs:83-85 | decoding a frame with a good header gives a checksum error for a frame index below 90, or a packet of consistent readings with angles below 360 |
| Driver.Send | neato_xv11/src/driver.rs:181-189 | a send succeeds exactly when the consumer still accepts messages; then the message is appended to the messages sent successfully, otherwise nothing changes |
| Driver.Publish | neato_xv11/src/driver.rs:352-357 | when the consumer still accepts messages, the decoding of the frame is appended to the messages sent successfully and the loop goes on; otherwise nothing is delivered and the loop breaks out; the stream and the flags are not touched, and what is appended is a loop message |
| Driver.Iterate | neato_xv11/src/driver.rs:280-358 | one iteration sends at most one message and only appends to what the consumer received; that message is a loop message (never `Shutdown`), and the consumer never receives more than it accepts |
| Driver.IterateStops | neato_xv11/src/driver.rs:285-306 | `Stop` or a disconnected command channel breaks out before any read, changing nothing |
| Driver.IteratePaused | neato_xv11/src/driver.rs:290-311 | without `Run`, a paused iteration, or one that receives `Pause`, reads nothing, sends nothing and leaves the loop paused |
| Driver.IterateDecodesGoodHeaders | neato_xv11/src/driver.rs:318-357 | only a 22-byte frame with a good header is handed to `parse_packet`, and what is sent is its decoding |
| Driver.IterateSynchronised | neato_xv11/src/driver.rs:329-357 | synchronised and running, exactly 22 bytes are read and the loop is left unpaused; those 22 bytes, and nothing else, are decoded exactly when their header is good, their decoding is sent, `needs_sync` stays clear and the loop goes on exactly when the send succeeds; a bad header sends one `ResyncRequired`, and the loop goes on with `needs_sync` set exactly when that send succeeds |
| Driver.IterateSyncs | neato_xv11/src/driver.rs:318-357 | unsynchronised and running, when `sync` finds a frame, exactly that frame is decoded and its decoding sent, the stream resumes after it, `needs_sync` and the pause are cleared, and the loop goes on exactly when the send succeeds |
| Driver.IterateSyncReadFails | neato_xv11/src/driver.rs:318-325 | unsynchronised, a read that fails inside `sync` sends `SerialRead`, uses up the stream and breaks out |
| Driver.IterateReadFails | neato_xv11/src/driver.rs:330-334 | synchronised, a read that cannot get 22 bytes sends `SerialRead` and breaks out |
| Driver.RunLoop | neato_xv11/src/driver.rs:280-363 | the loop only appends to what the consumer received and never beyond what it accepts |
| Driver.RunLoopMessages | neato_xv11/src/driver.rs:280-363 | every message the loop sends before its last is a loop message, so is every message of a loop still running, and the last one is a loop message or `Shutdown` |
| Driver.RunLoopShutdown | neato_xv11/src/driver.rs:358-363 | a loop that has been left ends with `Shutdown`, for any consumer that still accepts messages when the loop breaks; otherwise the receiver was dropped after all the sends it allows |
| Driver.RunLoopExits | neato_xv11/src/driver.rs:293-363 | breaking out of the loop, for any consumer, is followed by exactly one attempt to send `Shutdown`, which appends it when the consumer still accepts messages |
| Driver.SetupError | neato_xv11/src/driver.rs:237-268 | each failed setup step maps to its own error: opening to `OpenSerialPort`, the timeout to `SetTimeout`, configuring to `Configure` |
| Driver.SetupFailure | neato_xv11/src/driver.rs:237-268 | a failed setup step sends its error once, unless the consumer accepts nothing, and `run` returns without `Shutdown` |
| Driver.LoopSession | neato_xv11/src/driver.rs:280-363 | from a fresh channel, every message is a loop message except the last one of a finished run, which is `Shutdown` unless the receiver was dropped after all the sends it allows; every message is a loop message or `Shutdown` |
| Driver.RunDriver | neato_xv11/src/driver.rs:225-363 | a failed setup step sends its error once and no `Shutdown`; otherwise every message is a loop message except the last one of a finished run, which is `Shutdown` unless the receiver was dropped after all the sends it allows; no send succeeds after the receiver is dropped |
| Driver.ErrorMessageNeverSent | neato_xv11/src/driver.rs:225-363 | no call of `run` ever sends `LidarDriverMessage::Err` |
| RunProperties.StopEndsLoop | neato_xv11/src/driver.rs:285-306 | a `Stop` or a disconnected command channel anywhere among the polls ends the loop |
| RunProperties.MarkerFreeInputEndsRun | neato_xv11/src/driver.rs:318-363 | unsynchronised on a stream with no 0xFA, the first iteration that reads sends `SerialRead`, the loop ends and `Shutdown` follows |
| RunProperties.PausedLoopIsSilent | neato_xv11/src/driver.rs:308-311 | while paused and without a `Run`, iterations read nothing, send nothing and change nothing |
| RunProperties.PauseThenStop | neato_xv11/src/driver.rs:285-311 | `Pause`, then empty polls or pauses, then `Stop`: no byte is read and only `Shutdown` is sent |
| RunProperties.DecodesAlignedFrames | neato_xv11/src/driver.rs:329-357 | synchronised on a stream of well-framed frames, each iteration reads one frame and sends its decoding, in order |
| RunProperties.SyncThenDecode | neato_xv11/src/driver.rs:318-328 | unsynchronised, marker-free bytes before well-framed frames are skipped and every frame is decoded |
| RunProperties.RecoversAfterBadFrame | neato_xv11/src/driver.rs:336-348 | a mis-framed 22 bytes while synchronised costs one `ResyncRequired` and one resynchronisation, after which the following frames are all decoded |

## Left out

- Opening, timing out and configuring the serial port, and the `SETTINGS` constant: foreign I/O through the `serial` crate. Only the outcome is modelled (`PortSetup`).
- The I/O error values carried by `SerialRead`, `OpenSerialPort`, `SetTimeout` and `Configure`: they come from the `serial` crate. The model keeps only the kind of error.
- The `std::thread::sleep` throttling in `run` and `sync`: it only affects timing.
- Threads, channel internals and the blocking and timeout behaviour of `read_exact`: these are the input and output sequences described above.
- How many bytes a failed `read_exact` consumed: the loop exits right after a failed read, so the model treats the stream as used up.
- Clearing the 22-byte buffer at the top of each iteration: every frame handed on is read in full first, so the clearing cannot be observed.
- The `f64` speed (raw value divided by 64.0): the packet carries the raw little-endian 16-bit value.
- Logging, serde derives and the `Display` impl of commands.
- `LidarDriverMessage::Err`: declared in message.rs but never sent by the driver. The model declares it, and Driver.ErrorMessageNeverSent proves that `run` never sends it.
- The older error types in error.rs (`DriverErrorType`, `LidarReadingErrorType`): the model uses the variants that driver.rs constructs.
- Packet.ParsePacket: requires a frame number of at least 0xA0. The `usize` subtraction `buffer[1] - 0xA0` would underflow otherwise, and `run` only decodes frames that passed the header check.
- RunProperties.RecoversAfterBadFrame: recovery within one resync cycle is proved only when the bytes before the next real frame contain no 0xFA. A stray 0xFA followed by a byte in 0xA0..0xF9 makes `sync` lock onto a false boundary. Later mis-framed reads may pass the header check, so no bound on the number of cycles holds in general.
- RunProperties.StopEndsLoop: a `Stop` ends the loop once the iteration that receives it is reached. `sync` never polls the command channel, so on a port that delivers bytes forever without a valid header the source never gets there. The model's stream is finite, so every iteration ends; RunProperties.MarkerFreeInputEndsRun shows the one way out, a read failure. The same holds for RunProperties.PauseThenStop.
- Decoding the same frame twice gives equal results: every member of the model is a pure function, so this holds by construction and has no lemma of its own.
