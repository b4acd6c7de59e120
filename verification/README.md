# Smart-Bus driver: a model and its proofs

This project models, in Dafny, the protocol stack of a Smart-Bus (HDL) home automation driver and
the state machines above it, and proves what the stack is for: that messages come back
as they were sent, that the checksum catches what it should, that requests are run in
order and a bounded number of times, and that what the driver publishes agrees with what
the devices reported.

The layers, bottom to top:

- **Checksum** (`BitDivision`, `Crc16`, `CrcDetection`, `CrcOrder`). The table-driven CRC is bit-serial
  division by x^16+x^12+x^5+1, the generator of ITU-T V.41 section 2, from state 0. The
  table is proved entry by entry. From the linearity of the division follow an exact
  criterion for undetected errors, the detection of every burst of at most 16 bits and of
  every odd number of flipped bits. The order of x modulo the generator is 32767, so two
  flipped bits go unnoticed exactly at multiples of that distance: in a frame, never.
- **Messages** (`MessageFormat`, `FieldConverters`, `Messages`, `PanicConditions`, `WireFormat`,
  `WireReading`). Eleven kinds of field as a
  pair of functions `Decode` and `Encode`; the buffer loops of the source as methods over
  a `Buffer` class that do exactly what these functions say; the 23 message layouts; and
  the exact domain on which writing and reading are inverse. `PanicConditions` says exactly
  which messages the writer and which payloads the reader panics on. `WireFormat` and
  `WireReading` describe the same payloads and frames a second time, byte by byte and without
  fields: what is written, what is read, and what is refused.
- **Frames** (`StreamGrammar`, `Frame`, `FrameReader`, `WireRoundTrip`, `Udp`). The byte source
  is a finite sequence of events, each a byte or a timeout, and then the end. A grammar
  of streams says what the reader skips, accepts and cannot finish; every stream splits in
  exactly one way, and the reading loop, mutex included, delivers exactly the good frames
  of that split.
- **Request queue** (`MessageQueue`, `QueueCode`). A transition system in which the worker's
  `select` may take any ready case, with a trace of what happened, and beside it the code
  of the queue's methods, tied to the same traces.
- **Devices** (`Observer`, `ZoneBeast`, `ZoneBeastHistory`, `Ddp`, `DdpHistory`, `DdpChain`,
  `Relays`, `Devices`, `Strconv`). Each model is a class with the log of its observer calls. Its
  handlers are tied to functions on values, and about those functions whole runs are proved:
  that the view agrees with the model, and, in the histories, that the model agrees with what
  happened, event by event.
- **Threads** (`BusThreads`). Reader, dispatcher, worker, writer and poller around one serial
  line, with the mutex, the unbuffered channels and the bounded ones.

`Outcome` tells an error result from a panic (`Panic`): where the source panics, the model
says so and does not demand that the caller avoid it.

## Where the code differs from its comments, or falls short

Each of these is kept as the code has it and is stated by a member.

- `ReadSync` promises a mutex that is locked exactly when it returns no error
  (`smartbus/frame.go:128`, `smartbus/frame.go:205`). A timeout between the two sync bytes
  continues with the mutex held; `SyncTimeoutIsFinal` shows that nothing is ever delivered
  again, and that the next sync byte makes the reader wait for itself.
- The length byte is a truncated size (`smartbus/frame.go:68`). `FramedIff` gives the exact
  limit of 244 bytes of payload, `WireIff` the exact messages that survive the stream, and
  `LevelsIff` what that means for a list of channel levels: 243 come back, 244 do not.
- The number of status bytes is computed in eight bits (`smartbus/messageformat.go:26`), so
  a count of 249 to 255 makes the reader panic, and the domain stops at 248. `CrashIff` says
  exactly which payloads do it, `ParsePanicIff` which frames, `CrashedIff` which runs of the
  reader; `CrashExample` is a well-formed frame with a payload of four bytes.
- The converter of mapped bytes shadows its error (`smartbus/messageformat.go:162-165`):
  unmapped flags read as false (`FlagReads`) and unmapped button modes as the empty name
  (`ModeBytes`). `WritableIff`
  says exactly which of the messages that can be read can also be written, and
  `UnwritableExample` is one that cannot.
- The datagram side compares neither length nor checksum
  (`EnvelopeIgnoresLengthAndChecksum`), and an envelope with nothing in it makes it panic
  (`BareEnvelopePanics`).
- The request for an assignment reads the pending pair when it runs
  (`smartbus/smartbus_model.go:489-499`). `AssignSendsPending` says exactly when it sends
  the assignment that was asked for, and that a run after the acknowledgement sends 255.
- Nothing but its acknowledgement ends a pending assignment (`PendingUntilAcknowledged`), as
  the source's own note admits (`smartbus/smartbus_model.go:514`).
- A query response that contradicts the pending assignment is the only thing that makes
  what is shown differ from what is assigned (`SettledIff`), and there are runs in which it
  does (`UnsettledExample`).

## Model

| member | source | states |
|---|---|---|
| Crc16.TableEntry | smartbus/crc16.go:3-36 | Entry b of the table is b, in the high byte, carried through eight one-bit divisions; the table has an entry for each byte |
| Crc16.UpdateIsDivide | smartbus/crc16.go:38-40 | One table step is eight bit-serial division steps with the bits of the byte, most significant first, with an index always inside the table |
| Crc16.ComputeCrc16 | smartbus/crc16.go:42-48 | The loop computes the bit-serial remainder of the whole sequence |
| Crc16.CrcOkIffNoRemainder | smartbus/frame.go:176-180 | The comparison at the end of a frame succeeds exactly when the frame, checksum included, leaves no remainder |
| BitDivision.DivideIsShifts | smartbus/crc16.go:38-40 | Dividing up to 16 bits is xoring them in at the top and shifting as often: why a byte-wise table works at all |
| BitDivision.ShiftsLinear | smartbus/crc16.go:38-40 | Division steps distribute over xor |
| CrcDetection.UndetectedIff | smartbus/frame.go:176-180 | A corrupted good frame is accepted exactly when the error pattern alone has checksum 0 |
| CrcDetection.BurstDetected | smartbus/frame.go:176-180 | Any nonzero pattern within 16 consecutive bits, anywhere in a frame of any length, is rejected |
| CrcDetection.CrcParity | smartbus/crc16.go:42-48 | The bit parity of the checksum is the bit parity of the data |
| CrcDetection.OddErrorDetected | smartbus/frame.go:176-180 | Any odd number of flipped bits is rejected |
| CrcOrder.OrderOfX | smartbus/crc16.go:38-48 | x^n leaves the remainder 1 exactly when n is a multiple of 32767 |
| CrcOrder.TwoBitIff | smartbus/frame.go:176-180 | In a frame of any length, two flipped bits are accepted exactly at a distance that is a multiple of 32767 |
| CrcOrder.FewErrorsDetected | smartbus/frame.go:176-180 | One, two or three flipped bits anywhere in a frame of at most 4095 bytes are rejected |
| MessageFormat.UnpackPack | smartbus/messageformat.go:24-58 | Unpacking inverts packing, least significant bit first, for a status list of any length |
| MessageFormat.DecodeEncode | smartbus/messageformat.go:12-267 | For every kind of field and every value that fits, reading what was written gives the value and leaves what follows; fields that swallow the rest must be last |
| MessageFormat.EmptyStatusOnlyLast | smartbus/messageformat.go:12-45 | An empty status list is written as nothing, and that reads back as it exactly when nothing follows |
| MessageFormat.StatusSizeIs | smartbus/messageformat.go:26 | The eight-bit size is right for counts up to 248, and wraps to 0 for every greater one |
| MessageFormat.FitsIff | smartbus/messageformat.go:12-267 | Of the values a reader can produce, exactly the fitting ones can be written |
| MessageFormat.ReadFits | smartbus/messageformat.go:154-175 | Only an unmapped button mode can be read and not written |
| MessageFormat.Normalises | smartbus/messageformat.go:12-267 | Reading and writing a field again never makes it longer |
| MessageFormat.EncodeModesIs | smartbus/messageformat.go:177-226 | A mode list can be written exactly when all its names are known, and reads back as itself |
| MessageFormat.DecodeEncodeAll | smartbus/messageformat.go:277-329 | Reading all fields of a written struct gives them back, by induction over any layout whose greedy field is last |
| MessageFormat.NormalisesAll | smartbus/messageformat.go:277-329 | A struct that was read and can be written fits and takes no more bytes than it came in |
| MessageFormat.PanicIff | smartbus/messageformat.go:24-33 | Reading a field panics exactly at a channel status whose count is over 248 |
| FieldConverters.UnpackStatus | smartbus/messageformat.go:31-33 | The unpacking loop yields the unpacked list, and panics exactly when there are fewer bits than statuses |
| FieldConverters.ReadChannelStatusField | smartbus/messageformat.go:12-38 | Consumes and returns what the field's meaning says: an absent field is an empty list, a wrapped size is a panic |
| FieldConverters.WriteChannelStatusField | smartbus/messageformat.go:40-59 | Appends the count and the packed bits, or nothing for an empty list |
| FieldConverters.ReadStatusBytesField | smartbus/messageformat.go:63-80 | Consumes a count and that many bytes, or fails |
| FieldConverters.WriteStatusBytesField | smartbus/messageformat.go:82-91 | Appends the truncated count and all bytes |
| FieldConverters.ReadRemarkField | smartbus/messageformat.go:95-108 | Takes everything that is left, up to 63 bytes, and fails on 64 |
| FieldConverters.ReadTemperatureListField | smartbus/messageformat.go:122-134 | Takes up to eight signed temperatures of what is left |
| FieldConverters.WriteTemperatureListField | smartbus/messageformat.go:136-142 | Appends the temperatures, or fails on more than eight |
| FieldConverters.ReadPanelModesField | smartbus/messageformat.go:207-216 | Reads sixteen modes, unmapped ones as the empty name, or fails at the first missing byte |
| FieldConverters.WritePanelModesField | smartbus/messageformat.go:216-225 | Appends the modes' numbers, or fails on an unknown name |
| FieldConverters.ReadOneByte | smartbus/messageformat.go:154-175 | Consumes one byte and maps it, with the zero value for an unmapped one |
| FieldConverters.ReadBytes | smartbus/messageformat.go:288-289 | Consumes a big-endian word or eight bytes, or fails |
| FieldConverters.ReadField | smartbus/messageformat.go:269-275 | Every kind of field is read as its meaning says |
| FieldConverters.WriteField | smartbus/messageformat.go:300-306 | Every kind of field is written as its meaning says |
| FieldConverters.ParseMessage | smartbus/messageformat.go:277-298 | The loop over the fields reads the struct that the bytes mean, or stops at the first error or panic |
| FieldConverters.WriteMessage | smartbus/messageformat.go:308-329 | The loop over the fields appends the bytes of the struct, or stops at the first error |
| Messages.RecognizeOpcode | smartbus/messages.go:336-360 | Every registered type is found under its own opcode, so no two of the 23 share one |
| Messages.RoundTripIff | smartbus/messageformat.go:277-329 | For every message: writing succeeds and parsing gives it back exactly when it is in the domain (counts at most 248, 255, 63 and 8, temperatures -20 to 235, known modes, a writable category with its unused fields zero) |
| Messages.Normalise | smartbus/messageformat.go:277-329 | Any payload whose message is writable re-encodes, under the same opcode, to no more bytes, and that message is in the domain |
| Messages.WritableIff | smartbus/messages.go:149-171 | A message that was read can be written exactly when it holds no unset mode and its category is not sensors or audio |
| PanicConditions.EncodableIff | smartbus/messageformat.go:308-329 | WriteMessage succeeds exactly on known modes, remarks up to 63 bytes, up to eight temperatures, sensor temperatures from -20 to 235 and categories 1 to 3 |
| PanicConditions.CrashIff | smartbus/messageformat.go:277-298 | For every opcode and payload: parsing panics exactly when the byte at the place of a status count, under one of the three opcodes that have one, is there and over 248 |
| PanicConditions.UnwritableExample | smartbus/messageformat.go:154-175 | Sixteen unmapped modes are read and cannot be written |
| WireFormat.FlagReads | smartbus/messageformat.go:162-165 | A flag reads as set exactly on 0x01 and a success exactly on 0xf8, whatever follows |
| WireFormat.ModeBytes | smartbus/messageformat.go:239-253 | Which name each byte stands for; every byte over 10 is unmapped |
| WireFormat.BitIs | smartbus/messageformat.go:32 | Bit k of a status byte is the one of value 2 to the k |
| WireFormat.SignedIs | smartbus/messageformat.go:130 | Temperature bytes over 127 are below zero, by two's complement |
| WireFormat.PayloadIs | smartbus/messages.go:36-332 | Every message that can be written is written as exactly the bytes listed for it, including the 0x64 of a relay or dimmer answer, under the opcode listed for it |
| WireFormat.FrameIs | smartbus/frame.go:61-73 | Every written frame, position by position: length, addresses, type, opcode, payload and checksum |
| WireReading.MeaningIs | smartbus/messages.go:36-360 | For every opcode and every payload: it is read exactly if it is long enough, its counts fit and its category is known, and then as the message listed for its bytes |
| WireReading.ParsedFrame | smartbus/frame.go:132-149 | For every frame: it is parsed exactly if it has a header and its payload is readable, with the header fields at their positions |
| StreamGrammar.FirstRenders | smartbus/frame.go:98-183 | Any stream begins with a valid segment, or is a valid tail |
| StreamGrammar.FirstOfSegment | smartbus/frame.go:98-183 | A valid segment is recognised as such whatever follows it |
| StreamGrammar.SplitRenders | smartbus/frame.go:185-219 | Every stream, timeouts included, splits into valid segments and a valid tail that put together give it back |
| StreamGrammar.SplitUnique | smartbus/frame.go:185-219 | There is no other such split |
| Frame.WritePreBuiltFrame | smartbus/frame.go:52-59 | The frame goes out unchanged behind two sync bytes |
| Frame.WriteFrame | smartbus/frame.go:61-96 | Appends sync bytes and frame in one write, with the length patched in and the opcode taken from the message; a message that cannot be encoded is a panic that writes nothing |
| Frame.WriteOutgoing | smartbus/frame.go:238-245 | A message goes out as its frame and a ready frame as it is; anything else, and a message that cannot be encoded, is a panic that writes nothing |
| Frame.FrameHasCrc | smartbus/frame.go:68-69 | What is written always passes the reader's checksum comparison |
| Frame.FramedIff | smartbus/frame.go:68 | The length byte is right exactly for payloads of at most 244 bytes |
| Frame.ParseOfFrame | smartbus/frame.go:132-149 | A frame around a payload parses to that header with whatever the payload parses to, errors and panics included |
| Frame.ParseFrameOf | smartbus/frame.go:132-149 | A written message parses back, with the opcode filled in, exactly when it is in the domain |
| Frame.ParsedIsInDomain | smartbus/frame.go:132-149 | Any accepted frame whose message is writable re-encodes to a frame no longer than it that parses to the same message |
| Frame.ParsePanicIff | smartbus/frame.go:132-149 | ParseFrame panics exactly on fewer than three bytes or on a crashing payload behind a full header |
| FrameReader.ReadSync | smartbus/frame.go:98-130 | Skips exactly the segments before two sync bytes; its Lock and Unlock calls are those of the segments; it is synced with the mutex held, or ends as the tail says |
| FrameReader.CheckFrame | smartbus/frame.go:176-182 | A full body is handed on exactly when the grammar calls it good |
| FrameReader.ReadBody | smartbus/frame.go:165-182 | Body, timeout and end of stream are told apart as in the grammar, and exactly the segment is consumed |
| FrameReader.ReadSmartbusFrame | smartbus/frame.go:151-183 | After two sync bytes the result is a frame, a skip or the end, exactly as the first segment of the stream says, and exactly that segment is consumed |
| FrameReader.ByteStream.ReadFull | smartbus/frame.go:167-174 | Fills the rest of the buffer, or stops at the first timeout or the end, leaving the bytes before it alone |
| FrameReader.Handler.Handle | smartbus/frame.go:221-231 | With the mutex released, every frame goes to the gateway if there is one; a frame that parses is delivered and one that does not is dropped |
| FrameReader.ReadSmartbus | smartbus/frame.go:185-233 | Terminates on every stream and delivers, in order, exactly the messages of the good frames of its unique split; lock log, final mutex and outcome are those of the split, up to the first crashing frame if there is one |
| FrameReader.DeliverCrashed | smartbus/frame.go:221-231 | After a frame that makes the parser panic nothing more is delivered |
| FrameReader.CrashedIff | smartbus/frame.go:221-231 | A run crashes exactly when one of its frames is a crashing one |
| FrameReader.DeliveredAre | smartbus/frame.go:221-231 | What is delivered, for any list of frames: the messages of exactly those frames that parse, each once and in order, up to the first that crashes |
| FrameReader.DropsLeaveNothing | smartbus/frame.go:226-230 | Frames that do not parse change nothing in what is delivered |
| WireRoundTrip.WriteSmartbus | smartbus/frame.go:235-248 | The loop writes all messages and ready frames in order, locking and unlocking once for each; at the first that cannot be written it panics with the mutex locked, and everything before it has been written |
| WireRoundTrip.RoundTrip | smartbus/frame.go:61-233 | Any list of sendable messages, with any noise and any good frames that do not parse before each, and any tail, is delivered as sent, opcodes filled in |
| WireRoundTrip.WireIsWritten | smartbus/frame.go:235-248 | Without noise, the stream of the round trip is what the writing loop writes |
| WireRoundTrip.ForwardedIntact | smartbus/frame.go:221-248 | The good frames of any stream, written to another as they are, are exactly the good frames there |
| WireRoundTrip.DeliveredIsSendable | smartbus/frame.go:185-233 | On any stream, a delivered message that is writable is sendable and carries its own opcode |
| WireRoundTrip.WireIff | smartbus/frame.go:61-233 | One written message comes back exactly when it is in the domain and its payload has at most 244 bytes |
| WireRoundTrip.LevelsIff | smartbus/frame.go:68 | A list of channel levels can always be written, and survives the stream exactly up to 243 |
| WireRoundTrip.CrashingFrame | smartbus/messageformat.go:24-33 | A correct frame around any crashing payload of at most 244 bytes ends the run with nothing delivered, whatever follows |
| WireRoundTrip.CrashExample | smartbus/messageformat.go:24-33 | Such a frame, with a payload of four bytes |
| WireRoundTrip.CorruptionIsDropped | smartbus/frame.go:176-180 | A burst, two bits anywhere or an odd number of flipped bits behind the length byte make the reader drop that frame and go on with the next |
| WireRoundTrip.LocksAlternate | smartbus/frame.go:98-130 | Over valid segments Lock and Unlock alternate, one pair for each first sync byte |
| WireRoundTrip.SyncTimeoutIsFinal | smartbus/frame.go:112-117 | After a timeout between two sync bytes nothing more is delivered, and the reader waits for itself exactly if another sync byte comes |
| Udp.DoSend | smartbus/udp.go:83-99 | The datagram is address, signature and frame, of a message or ready-made, or a panic |
| Udp.DatagramIff | smartbus/udp.go:63-99 | A sent datagram gives its message back exactly when it is in the domain, whatever its size |
| Udp.EnvelopeIgnoresLengthAndChecksum | smartbus/udp.go:63-81 | Changing length byte and checksum of a datagram changes nothing in what is received |
| Udp.DatagramPanicIff | smartbus/udp.go:63-81 | Exactly the datagrams with a right envelope around a crashing frame make the receiver panic |
| Udp.BareEnvelopePanics | smartbus/udp.go:64-76 | An envelope of sixteen bytes with nothing in it is one |
| Udp.TakenIffEnvelope | smartbus/udp.go:63-76 | A datagram is taken for a frame exactly if it is four bytes, the signature and anything; all others are refused |
| Udp.SignatureLetters | smartbus/udp.go:63-70 | The signature is the letters SMARTCLOUD and the two sync bytes |
| MessageQueue.InvStep | smartbus/messagequeue.go:49-151 | Every step keeps the queue's history: accepted items are, in order, the finished, the current and the waiting ones, and what was run, timed, finished and flushed is exactly their lives |
| MessageQueue.QueueHistory | smartbus/messagequeue.go:49-151 | So for every run: each accepted item is answered, exhausted, abandoned, dropped by a flush, current or waiting, and never two of these; the trace, flushes included, is these lives in order; an exhausted item ran numRetries + 1 times, the others between 1 and that |
| MessageQueue.FirstRunsInOrder | smartbus/messagequeue.go:74-145 | From one Start to the next that finds the queue inactive, the first runs are a prefix of the accepted items |
| MessageQueue.TimersBalance | smartbus/messagequeue.go:93-123 | At every moment at most one timer is live, exactly while the worker waits, and every run has had its timer |
| MessageQueue.WorkIsBounded | smartbus/messagequeue.go:93-123 | While one item is in hand, the worker's steps are bounded by the retries left and the messages received |
| MessageQueue.ProtocolKept | smartbus/messagequeue.go:49-134 | Start and Stop exclude each other, the worker exists exactly between them, and neither channel outgrows its size |
| MessageQueue.StartIsClean | smartbus/messagequeue.go:57-60 | When Start is done nothing is left over in either channel |
| MessageQueue.StoppedIsQuiet | smartbus/messagequeue.go:125-134 | Once Stop has returned nothing runs, and nothing is taken from the channels, until the next Start |
| QueueCode.Queue.Enqueue | smartbus/messagequeue.go:138-145 | Appends the item, or refuses it exactly when the queue is full; nothing else changes |
| QueueCode.Queue.Start | smartbus/messagequeue.go:49-60 | Does nothing when active; otherwise everything left over is dropped before the worker starts |
| QueueCode.Queue.Flush | smartbus/messagequeue.go:62-72 | Empties both channels in whatever order they are taken from |
| QueueCode.Queue.ProcessItem | smartbus/messagequeue.go:93-123 | For every schedule of timeouts, messages and quit, with or without a timer function, the trace is a valid life of the item, and the worker goes on unless it was abandoned |
| QueueCode.ExhaustedIff | smartbus/messagequeue.go:105-115 | Without answer and quit, an item ends exactly when more timers fire than there are retries, and then as exhausted after numRetries + 1 runs |
| QueueCode.AnsweredInTime | smartbus/messagequeue.go:116-120 | An answer before the last timeout ends the item as answered, after as many runs as timeouts plus one |
| QueueCode.QuitAbandons | smartbus/messagequeue.go:102-104 | A quit before the answer and the last timeout ends the item as abandoned, after as many runs as timeouts plus one |
| QueueCode.ScheduleIsRun | smartbus/messagequeue.go:74-123 | Every schedule of the code is a run of the transition system, with the same trace and the same ending |
| Strconv.AtoiItoa | smartbus/smartbus_model.go:282-286 | Parsing a formatted number gives it back, sign included |
| Strconv.AtoiIff | smartbus/smartbus_model.go:536-551 | A string is parsed, as n, exactly if it is a sign or none, zeros or none, and the digits of n, in 64 bits |
| Strconv.WordIsNot | smartbus/smartbus_model.go:551-555 | What begins with neither digit nor sign is not a number |
| Observer.ConsistentMeans | smartbus/smartbus_model.go:463-472 | In a consistent log every value comes after its control, and no name is announced twice |
| ZoneBeast.ChannelCallsShow | smartbus/smartbus_model.go:349-368 | The calls for a status list turn the published view of the old channels into that of the new ones, and stay consistent |
| ZoneBeast.TempCallsShow | smartbus/smartbus_model.go:322-329 | The same for temperatures |
| ZoneBeast.ReportShows | smartbus/smartbus_model.go:303-368 | Every report from the wire keeps the published view equal to the mirror, and the controls in order |
| ZoneBeast.ViewIsMirror | smartbus/smartbus_model.go:303-381 | Over any run of reports, replaying the observer log gives exactly the channels and temperatures of the mirror; each control is announced once and first, Channel 1 to n in this order, and Temp 1 to n likewise |
| ZoneBeast.ChannelZeroIsRejected | smartbus/smartbus_model.go:310-335 | Channel number 0 wraps to index 255: no channel of a mirror that was fed from the wire changes and nothing is published; the next broadcast is skipped all the same |
| ZoneBeast.ParsedReportsAreFromWire | smartbus/messageformat.go:12-38 | Whatever bytes were parsed, the report has the length that this needs |
| ZoneBeast.CommandRoundTrip | smartbus/smartbus_model.go:280-313 | Writing to a published switch commands that channel with level 100 or 0, and the confirmation sets exactly that channel of the mirror |
| ZoneBeastHistory.SkipIff | smartbus/smartbus_model.go:310-320 | Over any run: the next broadcast is skipped exactly if a command was confirmed since the last one |
| ZoneBeastHistory.ChannelIs | smartbus/smartbus_model.go:303-368 | Over any run: a channel exists exactly if a list that was taken has reached it, and holds what the last report about it said, be it a broadcast that was not skipped, levels, or a confirmation |
| ZoneBeastHistory.TempIs | smartbus/smartbus_model.go:322-329 | Over any run: a temperature exists exactly if a list in Celsius has reached it, and is what the last such list said |
| ZoneBeastHistory.PublishedOnChange | smartbus/smartbus_model.go:337-346 | Over any run no channel is published with the value that it already shows |
| ZoneBeastHistory.AllAnnouncedAs | smartbus/smartbus_model.go:365-376 | Over any run channels are announced as switches that can be written and temperatures as read-only |
| ZoneBeast.ZoneBeastDeviceModel.UpdateSingleChannel | smartbus/smartbus_model.go:331-347 | Changes and publishes one existing channel, only if it differs |
| ZoneBeast.ZoneBeastDeviceModel.UpdateChannelStatus | smartbus/smartbus_model.go:349-368 | Both loops together overlay the list on the mirror and publish the changes and the new channels, in order |
| ZoneBeast.ZoneBeastDeviceModel.UpdateTemperatureValue | smartbus/smartbus_model.go:370-381 | Announces or updates one temperature |
| ZoneBeast.ZoneBeastDeviceModel.OnSingleChannelControlResponse | smartbus/smartbus_model.go:303-313 | Hands the message to the queue, takes the mirror and the log where the value model says, and arms the skip of the next broadcast |
| ZoneBeast.ZoneBeastDeviceModel.OnZoneBeastBroadcast | smartbus/smartbus_model.go:315-320 | The same; a broadcast right after a response is skipped once |
| ZoneBeast.ZoneBeastDeviceModel.OnReadTemperatureValuesResponse | smartbus/smartbus_model.go:322-329 | The same; values that are not in Celsius are ignored |
| ZoneBeast.ZoneBeastDeviceModel.OnQueryChannelStatusesResponse | smartbus/smartbus_model.go:609-615 | The same for levels, which count as on unless zero |
| ZoneBeast.Shorten | smartbus/smartbus_model.go:609-613 | A fresh list that is on exactly where the level is not zero |
| Ddp.ButtonNameRoundTrip | smartbus/smartbus_model.go:534-549 | Parsing the control name of any of the 16 buttons gives the button |
| Ddp.ButtonNameIs | smartbus/smartbus_model.go:408-412 | The sixteen names, page by page and button by button |
| Ddp.CrashName | smartbus/smartbus_model.go:534-537 | Parsing panics exactly on names that hold no Button behind a leading Page |
| Ddp.EventKeeps | smartbus/smartbus_model.go:430-589 | Every event keeps: names announced once and before their values, exactly the received buttons shown, the pending pair (-1, -1) or a button of 1 to 16 with a relay of 1 to 15 |
| Ddp.PanelRun | smartbus/smartbus_model.go:430-589 | So for every run |
| Ddp.AcknowledgedOnce | smartbus/smartbus_model.go:502-532 | Over any run the accepted assignments, button and relay as asked for, are in order the acknowledged ones and then the pending one; each acknowledgement publishes the relay that was asked for |
| Ddp.PendingForEver | smartbus/smartbus_model.go:502-532 | After any events without the acknowledgement the pending pair is the same, and every write is refused without effect |
| Ddp.PendingUntilAcknowledged | smartbus/smartbus_model.go:502-532 | At some point of a run the pending pair is no longer there exactly when an event of the run acknowledges it |
| Ddp.ModesAreRight | smartbus/smartbus_model.go:565-586 | The modes sent are SingleOnOff exactly where the updated assignment is a relay, and the message is in the domain |
| Ddp.AssignSendsPending | smartbus/smartbus_model.go:488-499 | A run of the request sends a given assignment exactly while that one is pending; with nothing pending it sends 255 and 255 |
| Ddp.SettledIff | smartbus/smartbus_model.go:448-517 | What is shown keeps agreeing with what is assigned, but for the pending button, exactly unless a response contradicts the pending assignment |
| Ddp.SettledRun | smartbus/smartbus_model.go:448-589 | So over any run without such a response |
| Ddp.UnsettledExample | smartbus/smartbus_model.go:448-517 | A run from a new panel that ends with another value on display than is assigned |
| DdpHistory.OpenPending | smartbus/smartbus_model.go:502-589 | Over any run: something is pending exactly if an accepted write has not been acknowledged, and it is the button and relay of that write |
| DdpHistory.AcceptedIff | smartbus/smartbus_model.go:527-563 | Over any run: a write to a published button is accepted exactly if none is open, all sixteen buttons have been reported and the value is a number from 1 to 15 |
| DdpHistory.AssignIff | smartbus/smartbus_model.go:480-500 | Over any run: the assignment is requested exactly at a response to the modes while an accepted write is not acknowledged |
| DdpHistory.QueryIff | smartbus/smartbus_model.go:430-478 | Over any run: a button is queried exactly at the first discovery, which is button 1, or at a report about the button before it |
| DdpHistory.HandshakeSends | smartbus/smartbus_model.go:480-589 | The handshake as a whole: after an accepted write and the response to the modes, and before the acknowledgement, the request was made and sends that button and that relay, byte for byte |
| DdpHistory.AnswerFollows | smartbus/smartbus_model.go:437-500 | Each request waits for the opcode after that of the message it sends |
| DdpHistory.ReceivedIff | smartbus/smartbus_model.go:452-470 | Over any run: a button is received exactly if there was a report about it |
| DdpHistory.AssignmentIs | smartbus/smartbus_model.go:457-576 | Over any run: a button is assigned what the last report about it or accepted write to it said, which is the relay only if the report names the driver's own address and the lighting command |
| DdpHistory.AllAnnouncedAs | smartbus/smartbus_model.go:471 | Over any run buttons are announced as texts that can be written, under their names |
| Ddp.DDPDeviceModel.QueryButtons | smartbus/smartbus_model.go:430-435 | Starts the chain once |
| Ddp.DDPDeviceModel.Record | smartbus/smartbus_model.go:463-472 | Records one button and publishes it as new or as a value |
| Ddp.DDPDeviceModel.OnQueryPanelButtonAssignmentResponse | smartbus/smartbus_model.go:448-478 | State, observer log and requests go where the value model says; a bad number changes nothing but is still passed to the queue |
| Ddp.DDPDeviceModel.OnSetPanelButtonModesResponse | smartbus/smartbus_model.go:480-500 | Requests the assignment exactly when one is pending |
| Ddp.DDPDeviceModel.OnAssignPanelButtonResponse | smartbus/smartbus_model.go:502-517 | Publishes and clears the pending assignment exactly on its own acknowledgement |
| Ddp.DDPDeviceModel.AllReceived | smartbus/smartbus_model.go:557-563 | True exactly when all sixteen buttons have been received |
| Ddp.DDPDeviceModel.Reassign | smartbus/smartbus_model.go:565-576 | One pass changes exactly the button named and yields the modes of the updated assignments |
| Ddp.DDPDeviceModel.AcceptOnValue | smartbus/smartbus_model.go:527-589 | Accepts, refuses or panics exactly as the value model says, for any name and value |
| DdpChain.StepKeeps | smartbus/smartbus_model.go:430-478 | Every interleaved step of panel, dispatcher and queue keeps the chain's invariant: one query outstanding, buttons received in order |
| DdpChain.StepRank | smartbus/messagequeue.go:74-123 | Every such step uses up a bounded rank |
| DdpChain.ChainCompletes | smartbus/smartbus_model.go:430-478 | With at most numRetries losses for each query, every run is bounded, and no step is left exactly when all 16 buttons are received, controls 1 to 16 created in order and the queue idle |
| DdpChain.ChainMayBreak | smartbus/messagequeue.go:105-110 | With one loss more there is a run that ends before anything was received: the bound is exact |
| BusThreads.ExclusiveAlways | smartbus/frame.go:202-248 | In every reachable state the reader owns the mutex exactly inside a frame and the writer exactly while it writes |
| BusThreads.StuckMeansWaiting | smartbus/frame.go:202-248 | When nothing can happen from inside, the reader waits for the stream, and everyone else for the world outside or, in a chain that ends there, for the end of the reader's frame |
| BusThreads.ComesToRest | smartbus/messagequeue.go:74-123 | Without events from outside every run is finite |
| BusThreads.NoCircle | smartbus/connection.go:25-34 | In every reachable state some step is possible from inside, or everyone waits only for stream, timers or requests, or a message waits for the end of a frame and the others for that message; however that frame ends, the writer can go on |
| BusThreads.NothingLost | smartbus/frame.go:221-248 | Over any run every message sent is written once, every frame read delivered once and every answer taken once, or it is on its way |
| BusThreads.DeliveringLockedMayHang | smartbus/frame.go:209-214 | Were the message delivered before the mutex is released, there would be a run into a deadlock: the order in the code is needed |
| Relays.VirtualRelayDevice.constructor | smartbus/smartbus_model.go:62-71 | All fifteen relays are announced as off, in order, as read-only switches |
| Relays.VirtualRelayDevice.Publish | smartbus/smartbus_model.go:62-71 | Announces every relay with its state, in order, and nothing else |
| Relays.VirtualRelayDevice.SetRelayOn | smartbus/smartbus_model.go:73-88 | Switches and publishes exactly one valid relay, only if it differs |
| Relays.VirtualRelayDevice.OnSingleChannelControlCommand | smartbus/smartbus_model.go:519-525 | The answer holds the states after the command and is always in the domain |
| Relays.Sensor8in1.ReportValue | smartbus/smartbus_model.go:645-651 | Announces the name as read-only, with its type, before the first reading is done, and publishes its value afterwards; the published value becomes the new one |
| Relays.Sensor8in1.OnReadSensorStatusResponse | smartbus/smartbus_model.go:677-685 | The five calls of a first reading or of a later one, each with its type; the published view is exactly the last reading |
| Devices.KeyInjective | smartbus/connection.go:71-73 | Two addresses never share a key |
| Devices.SmartbusModel.EnsureDevice | smartbus/smartbus_model.go:183-203 | The model already there, or a new one announced once if its type is one of the five known, or none |
| Devices.FirstTypeWins | smartbus/smartbus_model.go:183-203 | Over any run of headers an address keeps the first known type that was heard from it |

## Left out

- Serial, TCP and UDP sockets, MQTT, command-line flags, init scripts and packaging.
- `smartbus/dump.go`, logging, and the formatting of names and titles of devices.
- Reflection and visitor dispatch: replaced by datatypes and matches; a call through the
  observer's synchronous queue is taken to run at once.
- The gateway's own loop and the reuse of one buffer for all datagrams: frames are values.
- Aliasing: a message that answers a relay command shares its status list with the device
  in the source, and holds a copy here.
- `isMessageForUs`, sniffers, the wrappers that build one message each, and `Poll`.
- The length of timeouts: a timer is an event that may come or not.
- Udp.DoSend: the address has sixteen bytes, as every address in that package has.
- FieldConverters.ReadField: after an error it is not stated how much was consumed, because
  the source drops the buffer.
- QueueCode.ScheduleIsRun: the ready cases come one at a time, each from a schedule; that every
  run is such a schedule is said only by the lives in `QueueHistory`.
- MessageQueue.QueueHistory: a queue of size 0, whose channel hands items over directly
  to a waiting worker, accepts nothing here.
- BusThreads.NoCircle: Stop, the gateway and a timeout between two sync bytes are not part
  of that system; the last is the subject of `SyncTimeoutIsFinal`.
- Ddp.EventKeeps: writes come to control names that the model published, as the observer
  delivers them; for other names `AcceptOnValue` is stated without the invariant.
- DdpChain.ChainCompletes: one panel alone uses the queue, and its answers come before the
  timeout of the run that they answer.
- ZoneBeast.ZoneBeastDeviceModel.OnZoneBeastBroadcast: lists are limited to 255 entries,
  which is what the wire format can carry.
