# EFM8 C2 programmer — a Dafny model

The system is an Arduino-based programmer for Silicon Labs EFM8
microcontrollers. It has two ends:

- **The bridge firmware** (`lib/C2/C2.cpp`). It speaks Silicon Labs' two-wire
  C2 debug protocol to the target. On the serial side it assembles framed
  commands (`opcode, n, n payload bytes`) with the `updateState` machine.
  `loop` dispatches each complete frame: INIT, RESET, WRITE, ERASE, READ,
  INFO and ACK.
- **The host tools**, two of them:
  - `client/efm8.py`, the command-line programmer.
  - `client/flash_tool.py`, the programmer behind the graphical tool.

  Both build the same frames from an Intel HEX file and check each answer
  byte. `flash_tool` also reads every block back after writing it, and checks
  the device identity before it programs anything.

The model has three layers.

1. **The bridge.**
   - `c2_wire.dfy` covers the bit layout of the four C2 instructions.
   - `bridge_spec.dfy` is a value-level model of the command engine:
     - the frame assembler;
     - the instruction sequences of `readFlashBlock`, `writeFlashBlock` and
       `eraseDevice`;
     - one `loop` step (`Next`), and `Feed` over many steps.
   - `bridge.dfy` holds the `C2` class. Its `_message` and `_flashBuffer` are
     arrays updated in place. Every method is proved to follow the value-level
     model, and `Loop` is proved to be exactly one `Next` step.
   - The target is an oracle, `Device = nat -> byte`: the byte it answers to
     the k-th Data Read.
2. **The host tools.**
   - `intel_hex.dfy` formats and parses the records `read` writes.
   - `host_codec.dfy` covers the read request, the write frame and the
     per-line checks of `write`.
   - `host_session.dfy` describes each command as a function of a `Link`:
     the bytes still to arrive, and every byte sent so far.
   - `serial_port.dfy` is the serial port as a class holding that link.
   - `efm8.dfy` and `flash_tool.dfy` are the two `ProgrammingInterface`
     classes, plus `AppContext`. Their methods are proved against the session
     functions.
3. **Both ends together** (`interop.dfy`).
   - Every frame the host sends is assembled and accepted by the bridge, with
     the answer the host expects.
   - A complete `write` against a bridge finishes with `Completed`.
   - A read chunk records exactly the bytes the bridge read from the target.

Modules: `Bytes`, `C2Wire`, `BridgeSpec`, `Bridge`, `IntelHex`, `HostCodec`,
`HostSession`, `SerialPort`, `Efm8`, `FlashTool`, `Interop`.

## Model

| member | source | states |
|---|---|---|
| C2Wire.DataWriteLayout | lib/C2/C2.cpp:158-190 | The 12-bit Data Write word `(data << 4) \| 1`, sent least significant bit first, is the Data Write code, a zero length code, then the data byte's bits |
| C2Wire.AddressWriteLayout | lib/C2/C2.cpp:192-220 | The 10-bit Address Write word `(address << 2) \| 3`, least significant bit first, is the code `1,1` followed by the address bits |
| C2Wire.DataWriteBits | lib/C2/C2.cpp:158-190 | The `for i < 12` loop of `dataWrite` drives exactly the Data Write code and the data byte, least significant bit first |
| C2Wire.AddressWriteBits | lib/C2/C2.cpp:192-220 | The `for i < 10` loop of `addressWrite` drives exactly the Address Write code and the address |
| C2Wire.ByteBitsInjective | lib/C2/C2.cpp:108-115 | Two bytes with the same eight wire bits are equal |
| C2Wire.SampleByte | lib/C2/C2.cpp:108-115 | The sampling loop (`retval \|= 1 << i` on a high level) yields the byte whose wire bits are the sampled levels |
| C2Wire.DataReadBits | lib/C2/C2.cpp:86-122 | `dataRead` sends the instruction bits `0,0,0,0`, and the byte it returns has the sampled levels as its bits |
| C2Wire.AddressReadBits | lib/C2/C2.cpp:124-156 | `addressRead` sends `0,1`, and the byte it returns has the sampled levels as its bits |
| Bridge.C2.constructor | lib/C2/C2.cpp:8-19 | A fresh bridge: waiting for an opcode, identity 0x00 0x00, nothing sent, no instruction issued |
| Bridge.C2.AddressWrite | lib/C2/C2.cpp:192-220 | Appends exactly one Address Write of `address` to the instruction trace |
| Bridge.C2.DataWrite | lib/C2/C2.cpp:158-190 | Appends exactly one Data Write of `data` |
| Bridge.C2.DataRead | lib/C2/C2.cpp:86-122 | Returns the target's next answer, consumes it, and records the Data Read |
| Bridge.C2.PollBitLow | lib/C2/C2.cpp:232-240 | Records a wait for `mask` to clear and consumes no answer |
| Bridge.C2.PollBitHigh | lib/C2/C2.cpp:222-230 | Records a wait for `mask` to be set and consumes no answer |
| Bridge.C2.Send | lib/C2/C2.cpp:401 | `Serial.write(b)` appends b to the bytes sent to the host and changes nothing else |
| Bridge.C2.Init | lib/C2/C2.cpp:35-59 | Issues the FPCTL programming-enable sequence |
| Bridge.C2.DeviceInfo | lib/C2/C2.cpp:61-67 | Caches the target's next two answers as id and revision, after reading DEVICEID then REVID |
| Bridge.C2.WriteAndWait | lib/C2/C2.cpp:298-301 | One payload byte to the flash interface, then a wait for not-busy |
| Bridge.C2.WaitAndRead | lib/C2/C2.cpp:267-270 | A wait for output-ready, then one answer of the target, returned |
| Bridge.C2.OpenCommand | lib/C2/C2.cpp:243-252 | Selects FPDAT, sends the flash command, waits, and returns the status the target answers |
| Bridge.C2.ReadFlashBlock | lib/C2/C2.cpp:242-273 | Succeeds iff the first status is 0x0D. On success `count` answers land in `data[0..count)`; otherwise the buffer is unchanged. Also gives the exact trace and the answers consumed |
| Bridge.C2.TransferBlock | lib/C2/C2.cpp:254-272 | After a ready status: header, status read, then `data[..count]` are the next answers and the rest of `data` is untouched |
| Bridge.C2.FetchBlock | lib/C2/C2.cpp:267-270 | The data loop stores the next `count` answers in order, leaves the rest of the array as it was, and consumes exactly `count` answers |
| Bridge.C2.WriteFlashBlock | lib/C2/C2.cpp:275-310 | Reports success iff both the opening and the closing status are 0x0D; gives the exact trace and consumes one or two answers |
| Bridge.C2.EraseDevice | lib/C2/C2.cpp:312-340 | Reports success iff both statuses are 0x0D; gives the exact trace, which holds the erase key only after a ready status |
| Bridge.C2.ResetState | lib/C2/C2.cpp:346-348 | The assembler goes back to waiting for an opcode |
| Bridge.C2.UpdateState | lib/C2/C2.cpp:350-383 | The in-place update of `_state`, `_messagePtr`, `_bytesLeft` and `_message` is one step of the assembler, and the new state is returned |
| Bridge.C2.StagePayload | lib/C2/C2.cpp:435-437 | `_flashBuffer` starts with the frame's payload `_message[7..7+n)`; the rest of it is unchanged |
| Bridge.C2.StagedChecksum | lib/C2/C2.cpp:433-441 | The `unsigned char` running sum equals the sum of both address bytes and the payload, modulo 256 |
| Bridge.C2.HandleWrite | lib/C2/C2.cpp:431-453 | The WRITE case does what the value-level WriteCase does (see BridgeSpec.WriteVerdict) |
| Bridge.C2.SendBlock | lib/C2/C2.cpp:473-475 | Sends exactly the first `count` bytes of `_flashBuffer`, in order |
| Bridge.C2.HandleRead | lib/C2/C2.cpp:462-476 | The READ case does what ReadCase does (see BridgeSpec.ReadReply) |
| Bridge.C2.HandleInit | lib/C2/C2.cpp:404-421 | The INIT case does what InitCase does: enable programming, cache the identity, answer 0x81, reset |
| Bridge.C2.HandleErase | lib/C2/C2.cpp:455-460 | The ERASE case answers 0x84 and resets, whatever `eraseDevice` returned |
| Bridge.C2.Execute | lib/C2/C2.cpp:398-504 | The `switch(_message[0])` on a complete frame is the value-level Dispatch |
| Bridge.C2.Loop | lib/C2/C2.cpp:389-507 | With no byte available nothing changes. Otherwise the first queued byte is consumed and the new state is one `Next` step |
| Bridge.C2.Drain | lib/C2/C2.cpp:389-507 | Calling `loop` until the queue is empty reaches the state of `Feed` over every queued byte |
| BridgeSpec.Step | lib/C2/C2.cpp:350-383 | `updateState` keeps the assembler well formed and the buffer size, and never returns 0 |
| BridgeSpec.RunPrefix | lib/C2/C2.cpp:350-383 | After the first k >= 2 bytes of a frame, the assembler holds them in order and waits for the rest of the payload |
| BridgeSpec.RunFirstTwo | lib/C2/C2.cpp:352-370 | Opcode and length byte: the assembler waits for n payload bytes, or holds a complete empty frame |
| BridgeSpec.MidwayStep | lib/C2/C2.cpp:372-380 | Each payload byte is stored at the next position and counts down `_bytesLeft` |
| BridgeSpec.FrameAssembled | lib/C2/C2.cpp:350-383 | A frame fed from state 0 completes exactly at its last byte, never before, with the frame stored at the start of `_message` and the rest untouched |
| BridgeSpec.FrameStored | lib/C2/C2.cpp:350-383 | A frame fed from state 0 leaves state 3 with the frame stored in order |
| BridgeSpec.CompleteAbsorbs | lib/C2/C2.cpp:350-383 | In state 3 (no case in `updateState`) any later bytes leave the assembler unchanged |
| BridgeSpec.WriteAddress | lib/C2/C2.cpp:432 | The WRITE address `(_message[4] << 8) + _message[5]` fits in 16 bits |
| BridgeSpec.Payload | lib/C2/C2.cpp:435-437 | The staged payload has exactly `_message[2]` bytes |
| BridgeSpec.ReadAddress | lib/C2/C2.cpp:463-468 | The READ address assembled from `_message[3..5]` fits in 24 bits |
| BridgeSpec.AnswersAt | lib/C2/C2.cpp:267-270 | The k-th byte a block read stores is the target's answer `from + k` |
| BridgeSpec.FetchesSnoc | lib/C2/C2.cpp:267-270 | One more iteration of the read loop appends one wait-and-read to the trace |
| BridgeSpec.PushesSnoc | lib/C2/C2.cpp:298-301 | One more iteration of the write loop appends one write-and-wait to the trace |
| BridgeSpec.ReadBlockOpsReady | lib/C2/C2.cpp:242-273 | After a ready status, `readFlashBlock` issues the header, a status read, and `count` fetches |
| BridgeSpec.WriteBlockOpsReady | lib/C2/C2.cpp:275-310 | After a ready status, `writeFlashBlock` issues the header, one push per payload byte, and the closing status read |
| BridgeSpec.PushesWritten | lib/C2/C2.cpp:298-301 | The data loop of `writeFlashBlock` sends the payload itself, in order |
| BridgeSpec.FetchesWriteNothing | lib/C2/C2.cpp:267-270 | The fetch loop of `readFlashBlock` sends no data to the target |
| BridgeSpec.GateWritten | lib/C2/C2.cpp:243-252 | The common opening sends only the flash command |
| BridgeSpec.HeaderWritten | lib/C2/C2.cpp:254-263 | The block header sends address high, address low and length, in that order |
| BridgeSpec.ReadBlockWritten | lib/C2/C2.cpp:242-273 | `readFlashBlock` sends only BLOCK_READ on a non-ready status; otherwise BLOCK_READ, address high, address low and length |
| BridgeSpec.WriteBlockWritten | lib/C2/C2.cpp:275-310 | `writeFlashBlock` sends only BLOCK_WRITE on a non-ready status; otherwise the header followed by exactly the payload |
| BridgeSpec.EraseWritten | lib/C2/C2.cpp:312-340 | `eraseDevice` sends the key 0xDE 0xAD 0xA5 only after a ready status |
| BridgeSpec.WriteCase | lib/C2/C2.cpp:431-453 | WRITE keeps the bridge well formed and the buffer size |
| BridgeSpec.Dispatch | lib/C2/C2.cpp:398-504 | Every case keeps the bridge well formed and never alters `_message` |
| BridgeSpec.FeedQuiet | lib/C2/C2.cpp:389-396 | Bytes that complete no frame produce no reply and no C2 traffic; they only move the assembler |
| BridgeSpec.FeedFrame | lib/C2/C2.cpp:389-396 | A whole frame fed from state 0 produces nothing until its last byte, then exactly the dispatch of that frame |
| BridgeSpec.KeepsFrameExactly | lib/C2/C2.cpp:398-504 | The frame stays (no `resetState`) iff it is ACK, an unknown opcode, or a WRITE whose checksum fails |
| BridgeSpec.StuckFrameRepeats | lib/C2/C2.cpp:389-507 | Once a frame that is never reset is complete, every later byte re-dispatches it with the same reply (0x80, 0x43 or nothing), and the bus, the message and the consumed answers stay unchanged |
| BridgeSpec.StuckStep | lib/C2/C2.cpp:389-507 | One more byte on such a frame gives the same reply and nothing else changes |
| BridgeSpec.WriteVerdict | lib/C2/C2.cpp:431-453 | A WRITE is answered 0x83 and reset iff its checksum matches, whatever `writeFlashBlock` returned; otherwise it is answered 0x43 and kept. The payload is staged either way, and only an accepted frame's block goes to the target |
| BridgeSpec.ReadReply | lib/C2/C2.cpp:462-476 | READ answers 0x85 then exactly `_message[2]` bytes: the target's data when the status was ready, otherwise the stale `_flashBuffer` |
| BridgeSpec.InfoReply | lib/C2/C2.cpp:497-503 | INFO answers 0x88, id, revision; no case other than INIT changes the identity |
| BridgeSpec.IdentityZeroUntilInit | lib/C2/C2.cpp:404-421 | Until an INIT frame is dispatched, the cached identity stays 0x00 0x00 |
| IntelHex.ChecksumCancels | client/efm8.py:60-65 | The record checksum makes the sum of all record bytes 0 modulo 256 |
| IntelHex.ParseLine | client/efm8.py:66-67 | The written line `:` + upper-case hex + newline parses back to the record bytes |
| IntelHex.EmittedRecord | client/efm8.py:59-67 | The record `read` writes is a valid data record carrying the count, the low 16 bits of the address and exactly the body |
| IntelHex.FormatRecord | client/efm8.py:59-67 | The record-building loop with its running checksum produces that record line |
| HostCodec.ReadRequest | client/efm8.py:16-24 | A seven-byte READ frame, length byte 5, with the amount, and the low 24 bits of the address big-endian |
| HostCodec.BigEndian3 | client/efm8.py:20-22 | The three shifted-and-masked bytes are the low 24 bits of the address |
| HostCodec.ComputeChecksum | client/efm8.py:95-98 | The running sum masked with 0xFF is the address bytes plus data, modulo 256 |
| HostCodec.WriteFrame | client/efm8.py:104-105 | For data the guard lets through, the frame is the source's list `[3, n+5, n, 0, hi, lo, crc] + data`, and every entry is a byte |
| HostCodec.LineFields | client/efm8.py:91-94 | Address bytes and data are parsed only when the data has exactly `length` bytes |
| HostCodec.DecodeLine | client/efm8.py:81-105 | A line that yields a frame has at most 250 data bytes and a 16-bit address, and its frame ends with exactly that data |
| HostCodec.CheckLine | client/efm8.py:83-105 | The per-line checks and the checksum loop decide exactly what DecodeLine decides |
| HostCodec.GuardAdmits251 | client/efm8.py:89 | As written, the guard passes a 251-byte data record, whose frame would carry 256 as its length byte |
| HostCodec.CorrectedGuardAgrees | client/efm8.py:89-105 | With the guard `length + 5 < 256`, every line has the same outcome as with the written code (pyserial raises where the written guard passes) |
| HostCodec.ChecksumFieldIgnored | client/efm8.py:84-94 | `write` reads a data record line only up to the end of its data field. Whatever follows, such as the record's own checksum and the line ending, never changes the outcome, so a wrong record checksum goes unnoticed |
| HostCodec.RecordLineFields | client/efm8.py:88-94 | The fields `write` reads from a record `read` emitted are its count, address bytes, type 00 and body |
| HostCodec.ReadRecordWrites | client/efm8.py:59-67 | A record `read` emitted decodes, when `write` reads it, to the frame for the same 16-bit address and data (or raises when it holds more than 250 bytes) |
| HostCodec.BigEndian2 | client/efm8.py:91-92 | High and low address bytes recombine to the low 16 bits |
| HostSession.Awaited | client/efm8.py:45-48 | The re-read loop returns a reply of 2 to size+1 bytes taken from the front of the input. It never returns when size is 0 or fewer than two bytes arrive |
| HostSession.LowerHexOf39 | client/flash_tool.py:124 | `deviceId.hex()` is "39" iff the identity read is the single byte 0x39 |
| HostSession.IdentifyAccepts | client/flash_tool.py:164-177 | Identification accepts iff the bytes that arrive start 0x81 0x88 0x39; it sends INIT and, after a good answer, INFO |
| HostSession.WriteSession | client/efm8.py:81-111 | `write` always ends (completes, is rejected, raises, or stalls) |
| HostSession.Chunks | client/efm8.py:39 | `range(start, end, chunk)`: consecutive multiples of chunk from start, each below end, empty iff start >= end, and covering end |
| HostSession.EndedStays | client/efm8.py:106-109 | Once a line ends `write`, later lines change nothing |
| HostSession.StopsAtFirstRejection | client/efm8.py:104-109 | The first frame not answered 0x83 ends `write` as Rejected, with no reset sent |
| HostSession.RejectionEnds | client/efm8.py:104-109 | The same, over checked lines |
| HostSession.LoopNeverCompletes | client/efm8.py:83-109 | The line loop on its own never reports Completed; only the reset after it can |
| HostSession.AckedFrame | client/efm8.py:104-109 | A frame the loop gets past was sent and answered 0x83 |
| HostSession.LoopRanToEnd | client/efm8.py:83-109 | The loop ran to its end only if every line decoded and every frame was acknowledged; it then sent exactly the frames of the data records |
| HostSession.AckedToEnd | client/efm8.py:83-109 | Conversely, decodable lines with one 0x83 per frame run the loop to its end |
| HostSession.WriteCompletes | client/efm8.py:81-111 | `write` completes iff every line decodes, each frame is answered 0x83 and the reset 0x82. It has then sent the frames followed by `02 00` |
| HostSession.LoopCompletes | client/efm8.py:83-111 | The same over checked lines: the loop finishes and the reset is acknowledged iff the acknowledgements are all there |
| HostSession.ReadBackNeverMismatches | client/flash_tool.py:111-113 | `prettyHex` returns None and so does `read`, so the read-back comparison never fails |
| HostSession.NoMismatchReported | client/flash_tool.py:84-115 | flash_tool's `write` never reports a mismatch, whatever the device answers |
| HostSession.EmptyRecordStalls | client/flash_tool.py:111 | An acknowledged data record with no data makes the read-back wait forever (`read(address, 0)`) |
| HostSession.ChunkStep | client/efm8.py:42-67 | One chunk sends its request; if the reply comes, it adds exactly one record line for that address and chunk size |
| HostSession.ReadSendsRequests | client/efm8.py:38-70 | `read` writes at most one line per address. If it does not stall, it writes exactly one per address and has sent one request per address, in order |
| HostSession.ReadWritesRecords | client/efm8.py:38-70 | The i-th line written is a data record for the i-th address of the range |
| HostSession.StalledStays | client/efm8.py:45-48 | Once a chunk stalls, the rest of the range does nothing |
| SerialPort.Port.constructor | client/efm8.py:11 | The port starts with the given incoming bytes and nothing sent |
| SerialPort.Port.Write | client/efm8.py:42 | `serial.write` appends the bytes to what was sent |
| SerialPort.Port.Read | client/efm8.py:29 | `serial.read(k)` takes up to k bytes from the front of the input |
| SerialPort.Port.AwaitReply | client/efm8.py:45-48 | The `while True` re-read returns what Awaited says, or reports the stall |
| Efm8.ProgrammingInterface.constructor | client/efm8.py:10-14 | The interface talks through the given port |
| Efm8.ProgrammingInterface.Initialize | client/efm8.py:26-36 | Sends `01 00`; passes iff the answer is 0x81, and otherwise exits |
| Efm8.ProgrammingInterface.Read | client/efm8.py:38-70 | The loop over the range sends requests and writes records exactly as ReadAll describes |
| Efm8.ProgrammingInterface.Erase | client/efm8.py:72-75 | Sends `04 00`; passes iff the answer is 0x84, and otherwise raises |
| Efm8.ProgrammingInterface.Reset | client/efm8.py:77-79 | Sends `02 00`; passes iff the answer is 0x82, and otherwise raises |
| Efm8.ProgrammingInterface.SendLine | client/efm8.py:84-109 | One pass of the line loop is one LineStep |
| Efm8.ProgrammingInterface.Write | client/efm8.py:81-111 | The line loop and the final reset are WriteSession (see HostSession.WriteCompletes) |
| Efm8.ProgrammingInterface.DeviceInfo | client/efm8.py:113-119 | Sends `08 00`; raises unless the answer is 0x88, then consumes id and revision |
| FlashTool.ProgrammingInterface.constructor | client/flash_tool.py:16-20 | The interface talks through the given port |
| FlashTool.ProgrammingInterface.Initialize | client/flash_tool.py:32-42 | Passes iff INIT is answered 0x81 |
| FlashTool.ProgrammingInterface.Read | client/flash_tool.py:51-73 | Raises for a size above 255; otherwise one request and the wait; the value returned is `prettyHex`'s, i.e. None |
| FlashTool.ProgrammingInterface.Erase | client/flash_tool.py:75-78 | Passes iff ERASE is answered 0x84 |
| FlashTool.ProgrammingInterface.Reset | client/flash_tool.py:80-82 | Passes iff RESET is answered 0x82 |
| FlashTool.ProgrammingInterface.SendLine | client/flash_tool.py:86-113 | One pass of the line loop, with the read-back, is one LineStep |
| FlashTool.ProgrammingInterface.Write | client/flash_tool.py:84-115 | Write with read-back is WriteSession (see HostSession.NoMismatchReported) |
| FlashTool.ProgrammingInterface.DeviceInfo | client/flash_tool.py:117-124 | Raises unless INFO is answered 0x88; otherwise returns the identity byte as lower-case hex |
| FlashTool.AppContext.constructor | client/flash_tool.py:137-139 | No interface and no port yet |
| FlashTool.AppContext.ChoosePort | client/flash_tool.py:152-162 | The chosen name becomes the port; the interface is unchanged |
| FlashTool.AppContext.GetProgrammingInterface | client/flash_tool.py:164-177 | Returns True unchecked once an interface exists, and False with no port. Otherwise it opens and keeps a new interface, and accepts iff Identify does (see HostSession.IdentifyAccepts) |
| Interop.FeedConcat | lib/C2/C2.cpp:389-396 | Feeding x then y is feeding x + y |
| Interop.DecodedFramed | client/efm8.py:91-105 | Every frame `write` builds is the write frame for the line's address and data |
| Interop.WriteFrameAccepted | lib/C2/C2.cpp:431-453 | Every frame the host builds for a data record is assembled, its checksum accepted, answered 0x83 and reset; the bridge writes exactly that data at that address |
| Interop.FrameAccepted | lib/C2/C2.cpp:431-453 | The same for any well-framed line |
| Interop.AssembledWrite | lib/C2/C2.cpp:431-441 | The host's write frame, assembled, carries opcode 3, length, address and payload where `loop` reads them, and a matching checksum |
| Interop.ReadRequestAnswered | lib/C2/C2.cpp:462-476 | The host's read request is answered 0x85 plus `amount` bytes read at the low 16 bits of the address, and the bridge resets |
| Interop.FeedRead | lib/C2/C2.cpp:462-476 | Any READ frame fed from state 0 gives that answer |
| Interop.AssembledRead | lib/C2/C2.cpp:463-468 | The bridge recovers the host's 24-bit address, and its low 16 bits are the requested address's |
| Interop.LowBits | lib/C2/C2.cpp:469 | The uint16_t truncation of the 24-bit address is the low 16 bits of the host's address |
| Interop.InitAnswered | lib/C2/C2.cpp:404-421 | `01 00` is answered 0x81, caches the target's identity, and resets |
| Interop.ResetAnswered | lib/C2/C2.cpp:423-429 | `02 00` is answered 0x82 and resets |
| Interop.EraseAnswered | lib/C2/C2.cpp:455-460 | `04 00` is answered 0x84 and resets |
| Interop.InfoAnswered | lib/C2/C2.cpp:497-503 | `08 00` is answered 0x88 and the cached identity, and resets |
| Interop.AssembledCommand | lib/C2/C2.cpp:350-370 | A two-byte request is complete at its length byte and dispatched on its opcode |
| Interop.FramesAccepted | lib/C2/C2.cpp:431-453 | The frames of a whole file are each answered 0x83, and the bridge ends waiting for an opcode |
| Interop.WriteAgainstBridge | client/efm8.py:81-111 | When the host receives exactly the bridge's answers, efm8's `write` completes, having sent the frames and `02 00` |
| Interop.ReplyAwaited | client/efm8.py:45-48 | The host's wait takes exactly the bridge's reply of status plus `amount` bytes |
| Interop.ChunkAgainstBridge | client/efm8.py:38-67 | A read chunk against the bridge writes the record of exactly the bytes the bridge read from the target, or the stale buffer when the target was not ready |

## Left out

- Pins, port registers, clock pulses, the timing delays, `noInterrupts`, `setup` and the LED: the model works at the level of the C2 instruction, not of the signal.
- `pollBitLow`/`pollBitHigh` wait on the physical target. They are modelled as single steps that consume no answer, so a target that never becomes ready is not modelled.
- The constants in `C2.h` are not part of this model. The `Actions` opcodes, the C2 register addresses, the flash commands and the `_inBusy`/`_outReady` masks are parameters (`Config`). `HostOpcodes` fixes the values the host tools send. The ready status 0x0D is the constant `FlashReady`.
- The capacities of `_message` and `_flashBuffer` are assumed to be at least 262 and 255 bytes. WRITE reads `_message[7 + i]` for i < `_message[2]`, so a short buffer would be read out of bounds; that is not modelled. `_state` is taken to start at 0.
- The widths of `_messagePtr` and `_bytesLeft` are declared in `C2.h`, which is not part of this model. Both are unbounded counters here, so the model assumes `_messagePtr` never wraps. If it is an 8-bit counter, a frame with n = 255 stores its last byte at `_message[0]` and overwrites the opcode. The host's WRITE frame for a 250-byte record is such a frame.
- `readFlashBlock` selects `C2Addresses::FPDAT` (C2.cpp:243), while `writeFlashBlock` and `eraseDevice` select an unqualified `FPDAT` (C2.cpp:276, 313). Both are declared in `C2.h`, and the model takes them to be the same register, the single parameter `fpdat`.
- The constructor does not initialise `_message` or `_flashBuffer`. The model's constructor fills both arrays with zeros, but nothing proved depends on that: `Fresh` leaves the message buffer and the flash buffer unconstrained.
- The opcodes 0x06 and 0x07 are commented out in `loop`, so they fall under `Unknown`.
- `int(s, 16)` accepts signs, whitespace and underscores, and `bytearray.fromhex` skips whitespace. The model parses exactly two hex digits per field and exactly digit pairs for the data.
- Efm8.ProgrammingInterface.Read: requires a chunk size between 1 and 255. `range` with step 0 raises `ValueError`, and pyserial refuses a request byte above 255 before anything is sent. The script always uses 0x10.
- Everything printed (`print`) is not modelled. Neither is the argument parsing of the `efm8.py` script (lines 143-176), nor the file opening: the file is given as a list of lines.
- In `flash_tool.py`: the Tk interface, the file dialog, `createProgrammingTool` (which runs avrdude), `getPath` and `flashFile` are not modelled. `choosePort`'s listing of ports and its prompt are not modelled either; the chosen name is a parameter.
- Opening the serial port and the two-second pause are not modelled: each `ProgrammingInterface` is given a `Port`. The byte source behind a port is a fixed script of incoming bytes, so the bridge's answers arriving over time are not modelled.
- A `while True` re-read that can never return is modelled as the outcome `Stalled`.
- `efm8.py` `read` keeps waiting when fewer than two bytes arrive. The model follows that code, so a short reply stalls.
- `src/arduino_c2.cpp`, the sketch that owns the `C2` object, is not part of this model.

## Findings

| source | as written | input that shows it | evidently intended | confidence | as-written member | corrected member |
|---|---|---|---|---|---|---|
| client/efm8.py:89 | `assert length + 4 < 256` accepts a record length of 251, and the frame's length byte `len(data) + 5` is then 256 | the data record `:FB0000` + 251 zero bytes (HostCodec.Record251) | `length + 5 < 256`, so that every entry of the frame is a byte; as written, pyserial raises at `serial.write` instead of the assert (the same off-by-one is at client/flash_tool.py:92) | not executed | HostCodec.GuardAdmits251 | HostCodec.DecodeLine |
