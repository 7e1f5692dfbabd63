# stm32_isp_usart link layer in Dafny

This project models the host side of the STM32 USART bootloader protocol
(ST application note AN3155) as `Comm` in `comm.cpp` implements it. That is:

- the checksummed frames;
- the ACK/NACK replies;
- the start-frame handshake;
- the Get, Get Version, Get ID and Read Memory commands;
- the chunked memory dump with its endless retry loop.

The serial port is a value `Port(isOpen, incoming, sent)`:

- `incoming` is what the device will send, as a sequence of events. Each event is either a byte or a `Silence`, which is a wait window that closes with nothing received.
- `sent` is every byte the host has written.
- Writing to a closed port has no effect, as with a closed `QSerialPort`.

The model has two layers:

- **Functions.** Each operation of `comm.cpp` is a function from the port before the call to the outcome and the port after. Its `ensures` and the lemmas beside it say what the operation does. Often they do so in terms of the reply a well-behaved device sends: "served" lemmas say what the operation yields on such a reply. "Only when served" lemmas say that success implies such a reply was received. "Refused" lemmas give the error a command ends with when the device does not acknowledge it. The dump also records a trace of its read attempts; the trace lemmas tie each attempt to the bytes it wrote and to the events the device sent it, whatever the device does.
- **The class `Comm.Comm`.** Its fields are `com`, `supportedCmds` and the log of emitted messages. Its methods do the work step by step, with the program's loops. Each method is proved to end in exactly the state the function describes.

The modules are:

| module | file | contents |
|---|---|---|
| `Proto` | `proto.dfy` | protocol constants |
| `Config` | `config.dfy` | configuration constants |
| `Errors` | `errors.dfy` | the error classes as one datatype |
| `Messages` | `messages.dfy` | the hint, info and warning messages |
| `Seqs` | `seqs.dfy` | a fact about sequence concatenation used by the proofs |
| `SerialPort` | `serial_port.dfy` | the channel |
| `Frame` | `frame.dfy` | checksum, address and length byte |
| `Transfer` | `transfer.dfy` | `rxChar`, `rxAck`, `tx`, `txReq`, `txAddr`, `txAck`, `rx` |
| `MemoryRead` | `read_memory.dfy` | `cmdReadMemory` |
| `Commands` | `commands.dfy` | `cmdGet`, `cmdGetVersion`, `cmdGetID` |
| `Handshake` | `handshake.dfy` | `open` |
| `MemoryDump` | `memory_dump.dfy` | `dump` |
| `Comm` | `comm.dfy` | the class |

`proto.h` does not define `ISP_READ_MEMORY`, which `comm.cpp` uses. It is 0x11 here, the Read Memory opcode of AN3155, section 3.4.

## Model

| member | source | states |
|---|---|---|
| SerialPort.WaitForReadyRead | comm.cpp:41 | true exactly when a byte is waiting on an open port; a silence it waits through is used up; nothing else changes |
| SerialPort.GetChar | comm.cpp:44 | takes the waiting byte, if any, without waiting |
| SerialPort.Read | comm.cpp:32 | takes at most n of the bytes ready before the next silence, in order, and removes exactly those |
| SerialPort.Write | comm.cpp:65-66 | an open port appends the bytes to what was sent; a closed port drops them |
| SerialPort.Close | comm.cpp:145 | the port is closed; nothing else changes |
| SerialPort.RunIsMaximal | comm.cpp:31-32 | the ready run is the longest prefix of received bytes; a silence follows it |
| Frame.XorFromIsXorAll | comm.cpp:62-63 | the checksum loop from a seed equals the seed XOR the XOR of all bytes |
| Frame.Checksum | comm.cpp:61-63 | a payload of at most one byte is seeded with 0xFF: an empty payload is checked by 0xFF and a command opcode by its complement |
| Frame.ChecksumRule | comm.cpp:61-63 | the checksum of a payload of more than one byte is the XOR of its bytes |
| Frame.ChecksumIsTheAcceptedOne | comm.cpp:61-66 | the checksum the host appends is the only byte that makes the device's frame test succeed (AN3155, section 2) |
| Frame.EncodeIsAccepted | comm.cpp:65-66 | every frame the host writes passes the device's test |
| Frame.Encode | comm.cpp:65-66 | the frame is the payload followed by exactly one byte |
| Frame.AddressBytes | comm.cpp:85-88 | an address goes out as exactly four bytes; the two round-trip lemmas below show they are its big-endian bytes |
| Frame.AddressRoundTrip | comm.cpp:85-88 | the device reassembling the four bytes big-endian gets the address back |
| Frame.AddressBytesRoundTrip | comm.cpp:85-88 | the four bytes are determined by the address they encode |
| Frame.LengthByte | comm.cpp:207 | for size 0 the length byte wraps round to 0xFF |
| Frame.LengthByteCounts | comm.cpp:207 | for every byte n, a request for n + 1 bytes carries n; so every size from 1 to 256 travels as size - 1, and the device, which sends N + 1 bytes for N, sends exactly size bytes |
| Frame.ProductId | comm.cpp:195-196 | the high byte of the product id is the first id byte and the low byte is the second |
| Transfer.RxChar | comm.cpp:38-48 | succeeds exactly when a byte is ready and returns and consumes it; otherwise a port timeout |
| Transfer.RxCharLeftOf | comm.cpp:38-48 | a read consumes at most the event at the head: the byte, or the silence waited through |
| Transfer.RxAck | comm.cpp:50-57 | succeeds exactly when the byte is ACK; NACK gives the NACK error, any other byte an invalid response, no byte a timeout |
| Transfer.Tx | comm.cpp:59-68 | on an open port writes payload and checksum, and nothing on a closed one; the outcome is exactly the outcome of reading one ACK |
| Transfer.TxAcked | comm.cpp:59-68 | with an ACK waiting, the frame is written and the ACK consumed |
| Transfer.TxLeftOf | comm.cpp:59-68 | sending a frame consumes at most the one event that answers it |
| Transfer.TxReq | comm.cpp:75-80 | a one-byte frame sent through `tx`; its bytes and outcome are stated by `TxReqFrame` |
| Transfer.TxReqFrame | comm.cpp:75-80 | a request writes the opcode and its complement and is judged by the ACK that follows |
| Transfer.TxAddr | comm.cpp:82-90 | a four-byte frame sent through `tx`; its bytes and outcome are stated by `TxAddrFrame` |
| Transfer.TxAddrFrame | comm.cpp:82-90 | an address frame writes the four bytes most significant first, then their XOR, and is judged by the ACK |
| Transfer.TxAck | comm.cpp:70-73 | one ACK byte is written and nothing is read |
| Transfer.RxLoop | comm.cpp:31-32 | the loop of `rx`; which bytes it collects and which events it consumes is stated by `RxLoopReadsRun` and `RxLoopFromStart` |
| Transfer.RxLoopReadsRun | comm.cpp:31-32 | the loop of `rx` collects the ready run up to the limit and consumes the closing silence only when it stopped short |
| Transfer.Rx | comm.cpp:28-36 | succeeds exactly when a byte is ready, with between 1 and maxSize bytes, namely the run ready before the next silence; otherwise a port timeout; writes nothing, and a closed port is left as it was |
| Transfer.RxLeftOf | comm.cpp:28-36 | `rx` consumes only events at the head of the device's output |
| MemoryRead.SendRequest | comm.cpp:205-207 | the three request frames leave the port open or closed as it was; what goes out, and when the request succeeds, is stated by the three lemmas below |
| MemoryRead.SendAddress | comm.cpp:206-207 | the address and length frames leave the port open or closed as it was; `SendAddressStops` states what goes out |
| MemoryRead.SendRequestAcked | comm.cpp:205-207 | with three ACKs waiting, opcode, address and length frames all go out and the three ACKs are consumed |
| MemoryRead.SendRequestOnlyWhenAcked | comm.cpp:205-207 | the request succeeds only when three ACKs were waiting on an open port |
| MemoryRead.SendRequestStopsAtFirstRefusal | comm.cpp:205-207 | each frame waits for an ACK: one frame more than the ACKs received goes out, at most three; a closed port sends nothing and times out |
| MemoryRead.ReadMemory | comm.cpp:202-214 | a successful read returns exactly size bytes; the port stays open or closed as it was |
| MemoryRead.ReadMemoryServed | comm.cpp:202-214 | a device that acknowledges the three frames and sends the data makes the command return exactly that data after the full request |
| MemoryRead.ReadMemoryOnlyWhenServed | comm.cpp:202-214 | success implies the device sent three ACKs and then the returned bytes, and exactly those events were consumed |
| MemoryRead.ReadData | comm.cpp:209-211 | a successful data phase returns exactly size bytes; the port stays open or closed as it was |
| MemoryRead.SendAddressStops | comm.cpp:206-207 | the address frame always goes out on an open port; the length frame only after the address was acknowledged |
| MemoryRead.ShortReadIsTimeout | comm.cpp:209-211 | fewer than size bytes after the ACKs is a port timeout |
| MemoryRead.RequestUpToIsPrefix | comm.cpp:205-207 | the frames sent before a refusal are the start of the request: empty exactly when no frame went out, and the whole request once all three did |
| MemoryRead.ReadMemoryRefused | comm.cpp:202-207 | when the answer to the opcode, address or length frame is the first that is not an ACK, `cmdReadMemory` fails with the error `rxAck` raises on it: NACK received, invalid response, or a port timeout |
| MemoryRead.ReadMemoryLeftOf | comm.cpp:202-214 | `cmdReadMemory` consumes the device's output only from the head, so what it leaves unread is a suffix of what was waiting |
| MemoryRead.SendRequestLeftOf | comm.cpp:205-207 | the three request frames consume only events at the head of the device's output |
| MemoryRead.SendAddressLeftOf | comm.cpp:206-207 | the address and length frames consume only events at the head of the device's output |
| MemoryRead.ReadMemorySends | comm.cpp:202-214 | `cmdReadMemory` writes the request frames up to the first refused one, nothing on a closed port, and nothing in the data phase; a successful read sent the whole request |
| Commands.GetLoop | comm.cpp:165-166 | on success n opcodes are appended; nothing is written |
| Commands.GetLoopReads | comm.cpp:165-166 | the loop appends the ready bytes in order; if fewer than n are ready, it appends those and times out |
| Commands.Get | comm.cpp:156-170 | a closed port gives the not-active error and nothing is sent or changed |
| Commands.GetServed | comm.cpp:156-170 | a well-formed reply (ACK, a count byte equal to the number of opcodes, version, opcodes, ACK) returns the version, stores exactly the opcodes in order, consumes exactly the reply and sends only the Get frame |
| Commands.GetOnlyWhenServed | comm.cpp:156-170 | success implies the device sent exactly such a reply: ACK, a count byte equal to the number of stored opcodes, the returned version, the stored opcodes, ACK; only the Get frame was sent |
| Commands.GetReply | comm.cpp:162-167 | the count, version, opcode and ACK reads leave the port open or closed as it was; `GetReplyServed` states the decoded reply |
| Commands.GetReplyServed | comm.cpp:162-167 | a count byte equal to the number of opcodes, the version, the opcodes and ACK give the version and exactly those opcodes, and consume exactly that reply |
| Commands.GetTail | comm.cpp:164-167 | the opcode loop and the ACK read leave the port open or closed as it was; the two lemmas below state when they succeed |
| Commands.GetTailServed | comm.cpp:164-167 | n opcode bytes followed by ACK are stored in order and consumed |
| Commands.GetTailOnlyWhenServed | comm.cpp:164-167 | the opcode loop and the final ACK succeed only on n opcode bytes followed by ACK |
| Commands.GetVersion | comm.cpp:172-184 | a closed port gives the not-active error and nothing is sent |
| Commands.GetVersionServed | comm.cpp:172-184 | a well-formed reply yields its version byte, whatever the two option bytes |
| Commands.GetRefused | comm.cpp:156-161 | a Get request answered with anything but ACK makes `cmdGet` fail with the error `rxAck` raises on that answer, after the Get frame was sent, with the stored opcodes unchanged |
| Commands.GetVersionOnlyWhenServed | comm.cpp:172-184 | success implies a five-byte reply framed by ACKs whose second byte was returned |
| Commands.GetId | comm.cpp:186-200 | a closed port gives the not-active error and nothing is sent |
| Commands.GetIdServed | comm.cpp:186-200 | a well-formed reply yields the big-endian product id, whatever the length byte |
| Commands.GetVersionRefused | comm.cpp:172-177 | a Get Version request answered with anything but ACK fails with the error `rxAck` raises on that answer |
| Commands.GetIdOnlyWhenServed | comm.cpp:186-200 | success implies a five-byte reply framed by ACKs carrying the returned id |
| Commands.GetIdRefused | comm.cpp:186-192 | a Get ID request answered with anything but ACK fails with the error `rxAck` raises on that answer |
| Handshake.Drain | comm.cpp:118-130 | draining writes nothing and keeps the port open or closed |
| Handshake.DrainSkipsJunk | comm.cpp:118-130 | draining skips bytes other than ACK and NACK and stops after the first ACK or NACK or where the ready bytes end |
| Handshake.Probe | comm.cpp:112-134 | the attempt loop fails only with a port timeout and leaves the port open or closed as it was |
| Handshake.ProbeSilent | comm.cpp:112-134 | with nothing more to come, every remaining attempt sends one start frame and the loop times out |
| Handshake.ProbeOutcome | comm.cpp:112-134 | the attempts succeed exactly when ACK or NACK arrives within the remaining attempts, after one start frame per attempt used; otherwise one start frame per remaining attempt, then a timeout |
| Handshake.Open | comm.cpp:97-141 | a port that cannot be opened gives the open error; the result is Ok exactly when the port ends open; a failed handshake is a timeout after the hint |
| Handshake.OpenOutcome | comm.cpp:97-141 | the hint, then the start frames, then success on the first ACK (device ACK) or NACK (already connected); otherwise all 5000 start frames, a timeout and a closed port |
| Handshake.OpenAnsweredAtOnce | comm.cpp:112-128 | a device that answers the first start frame is connected after exactly one start frame |
| MemoryDump.GuardIsChunkCount | comm.cpp:225 | the intended guard admits exactly the chunks 0 to ceil(size / PAGE_SIZE) - 1 |
| MemoryDump.GuardAsWrittenNeverCloses | comm.cpp:225 | in 32-bit arithmetic, for sizes above 0xFFFFFF80 the guard holds for every chunk index |
| MemoryDump.GuardAsWrittenCounterexample | comm.cpp:225 | size 0xFFFFFFFF and chunk 0x2000000: the guard as written holds although the chunk lies past the range |
| MemoryDump.GuardsAgree | comm.cpp:225 | for all other sizes both guards agree on every chunk the loop reaches |
| MemoryDump.Dump | comm.cpp:216-220 | the only error is the file-open error, which occurs exactly when the file cannot be opened |
| MemoryDump.DumpFrom | comm.cpp:225-245 | the outer loop never goes back a chunk, and the dump is done only once the loop guard fails |
| MemoryDump.RetryFrom | comm.cpp:227-242 | the retry loop on chunk i never goes back a chunk, and ends the dump only through the guard |
| MemoryDump.TryChunk | comm.cpp:229-233 | one `cmdReadMemory` on chunk i at i * PAGE_SIZE + addr; the run it continues keeps the same two promises |
| MemoryDump.DumpNext | comm.cpp:231-244 | after a read, the file grows by the chunk and the dump moves on, or a warning is logged and the chunk retried; the run keeps the same two promises |
| MemoryDump.FollowsRequests | comm.cpp:231 | every attempt in a trace that follows wrote the Read Memory request for i * PAGE_SIZE + addr, the address of the chunk i it names, or the start of it: nothing exactly when the port is closed, the whole request when it read the chunk |
| MemoryDump.DumpFromTrace | comm.cpp:225-245 | for any device: each chunk is retried until it is read before the next starts; the port carries exactly the bytes of the attempts, each the request for its chunk's address or its start; the log gets, per attempt, the progress dot after a read of a nonzero multiple of REFRESH_RATE or the two warning messages after one of the first NRETRY failures of a chunk, then Ok when the dump ends; the file grows by exactly the data of the successful reads, in order, PAGE_SIZE bytes each, and the device's output splits, in order, into what each attempt consumed, a successful attempt having consumed exactly three ACKs followed by the data it added to the file; the dump ends exactly when all chunks are read |
| MemoryDump.DumpReadsWholeRange | comm.cpp:222-246 | a dump that ends wrote ceil(size / PAGE_SIZE) * PAGE_SIZE bytes, covering the range and less than one page more; the file is the data of the successful reads of chunks 0, 1, ... in order, each exactly the bytes the device sent after the three ACKs of that read; the port carries the requests of the attempts, each for its chunk's address; the log is the header, the messages of the attempts, and Ok |
| MemoryDump.DumpServedDevice | comm.cpp:224-246 | a device serving every request: the file is the pages in order, one request per chunk at addr + i * PAGE_SIZE, the log is the header, the dots and Ok |
| MemoryDump.DotsAreDots | comm.cpp:243-244 | progress output is made of dots only |
| MemoryDump.DotsCount | comm.cpp:243-244 | one dot per chunk index that is a nonzero multiple of REFRESH_RATE |
| MemoryDump.RetryFromSilent | comm.cpp:227-242 | on a silent device the retry loop sends one opcode frame per attempt and never leaves the chunk |
| MemoryDump.DumpSilentDevice | comm.cpp:224-242 | a device that never answers gets no data written and no end of the dump, and only the first NRETRY failures are reported |
| MemoryDump.WarningsCount | comm.cpp:236-240 | two messages per failure while retry < NRETRY, none after |
| Comm.Comm.constructor | comm.cpp:17-21 | a new object has a closed port, no commands and no messages |
| Comm.Comm.IsActive | comm.cpp:92-95 | true exactly when the port is open |
| Comm.Comm.Close | comm.cpp:143-146 | the port is closed; nothing else changes |
| Comm.Comm.RxChar | comm.cpp:38-48 | result and port are those of `Transfer.RxChar` |
| Comm.Comm.RxAck | comm.cpp:50-57 | result and port are those of `Transfer.RxAck` |
| Comm.Comm.Tx | comm.cpp:59-68 | the checksum loop and the writes end in the result and port of `Transfer.Tx` |
| Comm.Comm.TxAck | comm.cpp:70-73 | the port is that of `Transfer.TxAck` |
| Comm.Comm.TxReq | comm.cpp:75-80 | result and port are those of `Transfer.TxReq` |
| Comm.Comm.TxAddr | comm.cpp:82-90 | the shifted and masked bytes give the result and port of `Transfer.TxAddr` |
| Comm.Comm.Rx | comm.cpp:28-36 | the accumulation loop ends in the result and port of `Transfer.Rx` |
| Comm.Comm.DrainToGreeting | comm.cpp:118-130 | the `getChar` loop ends where `Handshake.Drain` says |
| Comm.Comm.Open | comm.cpp:97-141 | closing, opening, the hint and the attempt loop end in the result, port and messages of `Handshake.Open` |
| Comm.Comm.SendStartFrames | comm.cpp:112-134 | the attempt loop ends in the greeting or timeout and the port of `Handshake.Probe` from attempt 0 |
| Comm.Comm.CmdGet | comm.cpp:156-170 | ends in the result, port and command list of `Commands.Get` |
| Comm.Comm.ReadCommandList | comm.cpp:163-167 | clearing `supportedCmds`, appending one received opcode per pass and the closing ACK end in the result, port and list of `Commands.GetTail` |
| Comm.Comm.CmdGetVersion | comm.cpp:172-184 | result and port are those of `Commands.GetVersion` |
| Comm.Comm.CmdGetId | comm.cpp:186-200 | result and port are those of `Commands.GetId` |
| Comm.Comm.CmdReadMemory | comm.cpp:202-214 | result and port are those of `MemoryRead.ReadMemory` |
| Comm.Comm.ReadAttempt | comm.cpp:229-241 | one read of chunk i, with the warning after one of the first NRETRY failures, decides whether the dump moves on to the next chunk or retries this one, as `MemoryDump.RetryFrom` says |
| Comm.Comm.RetryRead | comm.cpp:227-242 | the retry loop ends with the chunk read, or with the attempts used up, as `MemoryDump.RetryFrom` says; warnings are logged as there |
| Comm.Comm.Dump | comm.cpp:216-255 | the nested loops end in the status, file, port and messages of `MemoryDump.Dump`; a file that cannot be opened changes nothing |

## Left out

- Qt configuration: port name, baud rate, data bits, parity, stop bits and flow control (comm.cpp:100, 103-107). The channel delivers bytes and silences only.
- Timing. The 5000 ms and 10 ms waits, `flush`, `QCoreApplication::processEvents` and `delay.h` are not modelled. A wait either finds a byte ready or closes on one `Silence`. A byte already buffered counts as ready; Qt would wait for new data even then.
- `Comm::ports` (comm.cpp:148-154): enumerating serial ports is an operating-system query.
- Message wording and formatting (`tr`, hexadecimal arguments). Messages are a datatype that keeps only the kind and the addresses.
- The destructor (comm.cpp:23-26) and the allocation of the `QSerialPort`: memory management.
- The output file of `dump` is an append-only byte sequence. Whether it opens is a parameter. Write failures of `QFile::write` and `close` are not modelled.
- The "Fail! at" handler of `dump` (comm.cpp:249-254) is not modelled. No call inside its `try` block can throw once the file is open, since the retry loop catches everything. The path is unreachable, and the model has no error there.
- MemoryDump.DumpFrom: the retry loop of `dump` has no exit but success (comm.cpp:227-242). The model bounds the total number of read attempts by a `fuel` argument. `OutOfFuel` stands for "still retrying"; it is not a failure. No give-up path exists: the only error `MemoryDump.Dump` returns is the file-open error.
- MemoryDump.DumpFrom and Comm.Comm.Dump use the intended guard `i * PAGE_SIZE < size`, computed without wrap-around. For a size above 0xFFFFFF80 the modelled dump therefore ends after ceil(size / PAGE_SIZE) chunks, while the source's loop never ends. The guard as written is modelled separately, in `MemoryDump.GuardAsWritten`, and compared with the intended one under "Findings".
- Comm.Comm.Dump: the retry counter is a signed `int` in the source. It would overflow after 2^31 failures of one chunk. The model counts with an unbounded `nat`. This only affects whether warnings are printed, and only long after the NRETRY warnings have stopped.
- The classes declared in `comm.h` beyond the `ErrorProtocol` errors, and the UI in `mainwindow.cpp` and `main.cpp`, are not part of this model.

## Findings

| source | as written | input that shows it | evidently intended | confidence | as-written member | corrected member |
|---|---|---|---|---|---|---|
| comm.cpp:225 | `i * PAGE_SIZE < size` is computed in unsigned 32-bit arithmetic, so the product wraps round | size = 0xFFFFFFFF (a range of -1 typed into the UI), i = 0x2000000: the product wraps to 0 and the guard holds; for every size above 0xFFFFFF80 the dump never ends | the loop runs exactly ceil(size / PAGE_SIZE) times | not executed | MemoryDump.GuardAsWrittenNeverCloses | MemoryDump.GuardIsChunkCount |
