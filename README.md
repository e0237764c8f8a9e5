# ESPTool host core in Dafny

A model of the host side of Espressif's serial bootloader protocol as the
ESPTool C# library implements it for ESP8266 and ESP32 chips, with proofs of
what each part promises. The serial port is replaced by an abstract link:
frames go out, frames (or a cancelled or failed read) come in, and every
loader call is answered by the next reply of a script that stands for the
device.

What is modelled, layer by layer:

- **SLIP framing** (RFC 1055): the reference escaping (`Slip`), the older
  streaming decoder and encoder (`SlipStream`) and the newer escape, unescape,
  frame-read and frame-write layer (`SlipLink`), with their round trips.
- **Requests and responses**: the request record and its 8-byte wire header
  with the 0xEF XOR checksum (`Requests`), the fluent builder
  (`RequestBuilder`) and the oldest request type (`RequestCmd`); response
  header parsing and its partial results (`Responses`); the status-code tables
  (`Errors`).
- **Command executors**: the newer stub and ROM executors (`StubExecutor`,
  `RomExecutor`) and the older pair (`LegacyExecutor`), each a
  clear-write-read-parse sequence over the link (`Link`), with the status-byte
  positions of each dialect.
- **Loaders**: the per-opcode payloads (`LoaderCommands`), the newer stub
  loader (`StubLoader`), the two ROM loader revisions (`RomLoader`), the oldest
  loader pair (`LegacyLoader`) and the wait for the stub's OHAI greeting
  (`Ohai`). Tools reach a loader through `Port`.
- **Control logic**: the bootloader synchronisation loop
  (`BootloaderTool`), the device object with its own retry loop (`Devices`),
  chip detection (`ChipDetect`) and the baud change (`ChangeBaud`).
- **Uploads**: the shared block loop and block-count arithmetic
  (`Chunking`), the single-stream upload tools (`UploadTools`), the
  multi-segment firmware uploaders (`FirmwareUpload`) and the ESP32 device
  with its fail-fast result threading and MD5 check (`Esp32Device`).
- **Flash reads**: the acknowledged data phase and digest check
  (`FlashRead`) and the read-only download stream (`FlashDownload`).
- **Utilities**: eFuse field assembly (`EFuse`), MAC address formatting
  (`MacAddress`), the zlib wrapper and Adler-32 (`Zlib`, section 2.2 of RFC
  1950), and the generic array helpers (`ArrayHelpers`). `Common` holds the
  machine-integer and byte helpers.

C#'s `byte`, `ushort`, `uint` and `int` wrap around; every such cast or
addition is written out as an explicit modulus. MD5 and deflate are library
calls and appear as function parameters.

## Model

| member | source | states |
|---|---|---|
| Slip.EscapedHasNoEnd | ESPTool/Com/SlipFraming.cs:59-75 | a stuffed frame never contains the END delimiter 0xC0 |
| Slip.EscapedLength | ESPTool/Com/SlipFraming.cs:59-75 | stuffing costs exactly one extra byte per 0xC0 and per 0xDB and copies every other byte: length n + count(0xC0) + count(0xDB) |
| Slip.EscapedAppend | ESPTool/Com/SlipFraming.cs:59-75 | stuffing works byte by byte: stuffing a concatenation is the concatenation of the stuffed parts |
| Slip.EscapedNonEmpty | ESPTool/Com/SlipFraming.cs:59-75 | a non-empty frame has a non-empty stuffed form |
| SlipStream.Step | ESPTool/Com/SlipFraming.cs:15-48 | one received byte: a frame is raised only from inside a frame, only when it is the non-empty buffer, and it resets the decoder to its fresh state |
| SlipStream.StepKeepsIdle | ESPTool/Com/SlipFraming.cs:19-47 | outside a frame the decoder holds no buffered bytes and no pending escape, before and after every byte |
| SlipStream.DiscardsBeforeStart | ESPTool/Com/SlipFraming.cs:43-47 | before the first 0xC0 every byte is discarded: the decoder stays fresh and raises nothing |
| SlipStream.EmptyDelimiterIgnored | ESPTool/Com/SlipFraming.cs:29-37 | a 0xC0 on an empty buffer raises nothing and leaves the decoder in-frame |
| SlipStream.NoEmptyFrames | ESPTool/Com/SlipFraming.cs:29-37 | whatever bytes arrive, no empty frame is ever raised |
| SlipStream.FeedAppend | ESPTool/Com/SlipFraming.cs:15-48 | feeding two chunks one after the other raises the same frames and reaches the same state as feeding their concatenation |
| SlipStream.FeedEscapeByte | ESPTool/Com/SlipFraming.cs:21-41 | inside a frame, the stuffed form of one byte (0xC0 as DB DC, 0xDB as DB DD) appends exactly that byte to the buffer |
| SlipStream.FeedEscaped | ESPTool/Com/SlipFraming.cs:21-41 | inside a frame, the stuffed form of any data appends exactly that data and raises nothing |
| SlipStream.RoundTrip | ESPTool/Com/SlipFraming.cs:15-78 | a fresh decoder fed Encode(f) for a non-empty f raises exactly one frame, equal to f, and ends fresh |
| SlipStream.FramedShape | ESPTool/Com/SlipFraming.cs:51-78 | an encoded frame starts and ends with 0xC0, has no 0xC0 in between, and is n + 2 + count(0xC0) + count(0xDB) bytes long |
| SlipStream.SlipFraming.constructor | ESPTool/Com/SlipFraming.cs:10-13 | a new decoder has an empty buffer, no start found and no escape pending |
| SlipStream.SlipFraming.Decode | ESPTool/Com/SlipFraming.cs:15-48 | the fields and the frame event after one byte are exactly those of the decoder step function |
| SlipStream.SlipFraming.Encode | ESPTool/Com/SlipFraming.cs:51-78 | the loop produces 0xC0, the stuffed frame, 0xC0; hence the delimiter and length facts above |
| SlipLink.SerialLine.constructor | ESPTool/Communication/SlipFraming.cs:25-28 | a line starts with the bytes the device will deliver and nothing written |
| SlipLink.UnescapedAt | ESPTool/Communication/SlipFraming.cs:101-121 | unstuffing from one position: a plain byte is copied, DB DC gives C0, DB DD gives DB, DB with any other byte gives nothing, a trailing DB ends the output |
| SlipLink.UnescapeEscape | ESPTool/Communication/SlipFraming.cs:73-124 | unstuffing undoes stuffing for every byte sequence |
| SlipLink.UnescapedNoLonger | ESPTool/Communication/SlipFraming.cs:97-124 | unstuffing never yields more bytes than it reads |
| SlipLink.SkipsLeadingDelimiters | ESPTool/Communication/SlipFraming.cs:48-53 | delimiters that arrive while nothing is collected are skipped |
| SlipLink.CollectsUpToDelimiter | ESPTool/Communication/SlipFraming.cs:44-58 | delimiter-free bytes are collected verbatim; the first delimiter after a non-empty collection returns its unstuffed form and leaves the rest unread |
| SlipLink.ReadsWrittenFrame | ESPTool/Communication/SlipFraming.cs:30-59 | a reader given what the writer put on the wire for a non-empty frame returns that frame and leaves what follows unread |
| SlipLink.SlipFraming.constructor | ESPTool/Communication/SlipFraming.cs:25-28 | the framing object is bound to the given line |
| SlipLink.SlipFraming.WriteFrame | ESPTool/Communication/SlipFraming.cs:30-37 | the line receives exactly 0xC0, the stuffed frame, 0xC0, and nothing is read |
| SlipLink.SlipFraming.ReadFrame | ESPTool/Communication/SlipFraming.cs:39-59 | the loop returns the collection function's frame and consumes exactly the bytes it reads; when the line runs dry the read is cancelled |
| SlipLink.SlipFraming.EscapeFrame | ESPTool/Communication/SlipFraming.cs:73-95 | the loop yields the stuffed frame: only C0 and DB are escaped (DC is not), no C0 remains, and the length grows by one per escaped byte |
| SlipLink.SlipFraming.Unescape | ESPTool/Communication/SlipFraming.cs:97-124 | the index loop, which skips a byte after each DB, yields the reference unstuffing, never longer than its input |
| Requests.ChecksumFitsInByte | ESPTool/Commands/RequestCommandBuilder.cs:67-75 | the checksum, 0xEF folded by XOR with the payload bytes from index 16 on, always fits in one byte |
| Requests.ShortPayloadChecksum | ESPTool/Commands/RequestCommandBuilder.cs:69-74 | a payload of at most 16 bytes checksums to exactly 0xEF |
| Requests.ChecksumCoversBlock | ESPTool/Commands/RequestCommandBuilder.cs:71-74 | behind a 16-byte data header the checksum is 0xEF XOR exactly the block bytes |
| Requests.Built | ESPTool/Commands/RequestCommandBuilder.cs:16-62 | a built request has direction 0, the given opcode and payload, size = payload length mod 2^16, and checksum 0 unless one was required |
| Requests.Serialize | ESPTool/Loaders/SoftLoader/SoftLoaderCommandExecutor.cs:57-68 | the frame is 8 + n bytes: direction, opcode, LE16 size, LE32 checksum, then the payload, each read back from its position |
| RequestBuilder.RequestCommand.constructor | ESPTool/Commands/RequestCommand.cs:7-14 | a new request record has direction 0, opcode 0, size 0, checksum 0, no checksum flag and an empty payload |
| RequestBuilder.RequestCommandBuilder.constructor | ESPTool/Commands/RequestCommandBuilder.cs:7-10 | a builder owns a fresh default request |
| RequestBuilder.RequestCommandBuilder.WithCommand | ESPTool/Commands/RequestCommandBuilder.cs:16-20 | only the opcode changes; the builder returns itself |
| RequestBuilder.RequestCommandBuilder.AppendPayload | ESPTool/Commands/RequestCommandBuilder.cs:25-30 | the part is appended to the payload, the size becomes the new length mod 2^16, nothing else changes |
| RequestBuilder.RequestCommandBuilder.RequiresChecksum | ESPTool/Commands/RequestCommandBuilder.cs:36-40 | only the checksum flag changes |
| RequestBuilder.RequestCommandBuilder.WithDirection | ESPTool/Commands/RequestCommandBuilder.cs:46-50 | only the direction changes |
| RequestBuilder.RequestCommandBuilder.Build | ESPTool/Commands/RequestCommandBuilder.cs:55-62 | the shared request is returned; its checksum is computed when the flag is set, and every field is left as it was otherwise |
| RequestBuilder.RequestCommandBuilder.CalculateChecksum | ESPTool/Commands/RequestCommandBuilder.cs:67-75 | the XOR loop from index 16 leaves the checksum equal to the reference checksum and changes no other field |
| RequestBuilder.BuildChain | ESPTool/Commands/RequestCommandBuilder.cs:16-62 | any chain of opcode, flag and payload parts followed by Build yields the reference request for the concatenated payload, so direction stays 0 |
| RequestCmd.RequestCMD.Empty | ESPTool/CMD/RequestCMD.cs:9-19 | the default constructor gives direction 0, an empty payload, size 0 and checksum 0 |
| RequestCmd.RequestCMD.constructor | ESPTool/CMD/RequestCMD.cs:21-30 | the constructor yields the same request the newer builder does: direction 0, opcode, payload, 16-bit size, checksum only when required |
| RequestCmd.RequestCMD.CalculateChecksum | ESPTool/CMD/RequestCMD.cs:55-63 | the XOR loop from index 16 leaves the checksum equal to the reference checksum and changes no other field |
| Responses.ParseHeader | ESPTool/Loaders/SoftLoader/SoftLoaderCommandExecutor.cs:77-81 | with 8 or more bytes: direction, opcode, LE16 size at 2, LE32 value at 4 and payload from 8; a shorter frame keeps the fields read before the fault and leaves success false |
| Errors.StubStatus | ESPTool/Errors.cs:30-48 | only ESP_OK maps to NoError; exactly the unnamed codes map to Unknown; ESP_INVALID_COMMAND and ESP_CMD_NOT_IMPLEMENTED, and only they, map to Failed; ESPTool/Commands/EnumErrorHelper.cs:5-23 holds the same table over the response error enum |
| Errors.RomStatus | ESPTool/Errors.cs:50-63 | the ROM table never yields NoError or a stub-only error, and yields Unknown exactly outside the codes 0x05..0x0B; each of the seven codes goes to its same-named member, the same table as ESPTool/Commands/EnumErrorHelper.cs:25-38 |
| Errors.StubStatusNotInjective | ESPTool/Errors.cs:38-45 | two different named stub codes share one error, so the stub table is not one-to-one |
| Errors.RomStatusInjective | ESPTool/Errors.cs:54-77 | on its seven named codes 0x05..0x0B the ROM table is one-to-one |
| Errors.ZeroDiffersBetweenTables | ESPTool/Errors.cs:34-61 | a zero status byte means success to the stub table but Unknown to the ROM table |
| Link.Communicator.constructor | ESPTool/Communication/Communicator.cs:14-18 | a new link has the given baud, nothing buffered and nothing logged |
| Link.Communicator.ClearBuffer | ESPTool/Communication/Communicator.cs:74-80 | stale buffered frames are dropped; what the device delivers next and the baud are unchanged |
| Link.Communicator.WriteFrame | ESPTool/Communication/Communicator.cs:89-92 | writing logs the frame and changes nothing the reads will see |
| Link.Communicator.ReadFrame | ESPTool/Communication/Communicator.cs:101-104 | a read returns the oldest buffered frame, else the device's next delivery, and consumes exactly that one |
| Link.Communicator.GetBaudRate | ESPTool/Communication/Communicator.cs:55 | the current host-side baud |
| Link.Communicator.ChangeBaudRate | ESPTool/Communication/Communicator.cs:61-69 | the host-side baud becomes exactly the requested one; the frame queues are untouched |
| StubExecutor.FrameToResponse | ESPTool/Loaders/SoftLoader/SoftLoaderCommandExecutor.cs:72-98 | header fields from their positions; Success iff the byte at Size-1 is 0 and the status byte at Size-2 is ESP_OK; Success implies NoError; the error is the mapped byte at Size-2 when it exists |
| StubExecutor.UndersizedFails | ESPTool/Loaders/SoftLoader/SoftLoaderCommandExecutor.cs:93-96 | a frame shorter than 8 bytes, or whose Size is below 2 or past the payload, parses as unsuccessful instead of throwing |
| StubExecutor.Exchange | ESPTool/Loaders/SoftLoader/SoftLoaderCommandExecutor.cs:20-55 | a reply is returned iff a frame came whose opcode matches the request's; a cancelled read stays a cancellation and every other failure becomes InvalidOperationException |
| StubExecutor.ExecuteCommand | ESPTool/Loaders/SoftLoader/SoftLoaderCommandExecutor.cs:20-55 | clears the input, writes the serialised request, reads one frame, in that order, and returns the exchange's outcome |
| RomExecutor.FrameToResponse | ESPTool/Loaders/ESP32BootLoader/BootLoaderCommandExecutor.cs:69-88 | header fields from their positions; Success iff the byte at Size-4 is 0 (with the byte at Size-3 present); the error is the ROM mapping of the byte at Size-3, set independently |
| RomExecutor.SuccessIgnoresStatus | ESPTool/Loaders/ESP32BootLoader/BootLoaderCommandExecutor.cs:79-81 | a successful ROM response still carries a non-NoError status, because success never looks at the status byte |
| RomExecutor.DialectsDisagree | ESPTool/Loaders/ESP32BootLoader/BootLoaderCommandExecutor.cs:79-81 | one concrete reply is a success to the ROM parser and a failure to the stub parser: the status bytes sit two positions apart |
| RomExecutor.Exchange | ESPTool/Loaders/ESP32BootLoader/BootLoaderCommandExecutor.cs:19-54 | a reply is returned iff a frame came whose opcode matches; cancellation stays a cancellation, every other failure becomes InvalidOperationException |
| RomExecutor.ExecuteCommand | ESPTool/Loaders/ESP32BootLoader/BootLoaderCommandExecutor.cs:19-54 | clears, writes the serialised request, reads one frame, and returns the exchange's outcome |
| LegacyExecutor.StubFrameToResponse | ESPTool/Commands/SoftLoaderCommandExecutor.cs:12-32 | header as in the base class; Success iff the byte at Size-1 is 0; the error is the stub mapping of the byte at Size-2; the two are set independently |
| LegacyExecutor.SuccessWithError | ESPTool/Commands/SoftLoaderCommandExecutor.cs:24-25 | one concrete reply is a success carrying the Invalid error to this parser and a failure to the newer stub parser |
| LegacyExecutor.NewerStubRefines | ESPTool/Loaders/SoftLoader/SoftLoaderCommandExecutor.cs:84-91 | the newer stub parser equals the older one with Success additionally cleared whenever the error is not NoError |
| LegacyExecutor.FrameToResponse | ESPTool/Commands/CommandExecutor.cs:65-83 | the base class parses in the ROM layout (Size-4 / Size-3) and the subclass in the stub layout |
| LegacyExecutor.Exchange | ESPTool/Commands/CommandExecutor.cs:18-44 | any reply frame is parsed and returned whatever its opcode; a missing frame gives a blank unsuccessful response; cancellation and other failures as in the newer executors |
| LegacyExecutor.NoOpcodeCheck | ESPTool/Commands/CommandExecutor.cs:22-34 | a SYNC reply is handed back as the answer to any other request, where the newer executor raises InvalidOperationException |
| LegacyExecutor.ExecuteCommand | ESPTool/Commands/CommandExecutor.cs:18-44 | clears, writes the serialised request, reads one frame, and returns the exchange's outcome |
| LoaderCommands.OpcodeIdentifiesCall | ESPTool/Loaders/SoftLoader/SoftLoader.cs:30-272 | the opcode alone tells which command a request is and, for begin/data/end, which of flash, RAM or compressed flash |
| LoaderCommands.IntBytes | ESPTool/Loaders/SoftLoader/SoftLoader.cs:90 | GetBytes of an int gives four bytes that read back as its 32-bit two's-complement pattern |
| LoaderCommands.BeginPayload | ESPTool/Loaders/SoftLoader/SoftLoader.cs:140-148 | a begin payload is exactly 16 bytes: LE32 size, block count, block size, offset |
| LoaderCommands.DataPayload | ESPTool/Loaders/SoftLoader/SoftLoader.cs:158-168 | a data payload is the LE32 block length, the LE32 sequence number, two zero words, then the block, 16 + n bytes |
| LoaderCommands.EndPayload | ESPTool/Loaders/SoftLoader/SoftLoader.cs:178-184 | an end payload is 8 bytes: the flag, then the entry point |
| LoaderCommands.BaudPayload | ESPTool/Loaders/SoftLoader/SoftLoader.cs:30-36 | a baud payload is 8 bytes: the new baud, then the second word the loader chooses |
| LoaderCommands.Md5Payload | ESPTool/Loaders/SoftLoader/SoftLoader.cs:47-55 | an MD5 payload is 16 bytes: address, size and two zero words |
| LoaderCommands.SyncPayload | ESPTool/Loaders/SoftLoader/SoftLoader.cs:249-254 | the sync payload is 36 bytes: 07 07 12 20 followed by 32 bytes of 0x55 |
| LoaderCommands.RequestOf | ESPTool/Loaders/SoftLoader/SoftLoader.cs:30-272 | every request has direction 0, its command's opcode and a 16-bit size; exactly the data commands carry a checksum, which is 0xEF XOR the block bytes; erase has an empty payload; read-register carries the LE32 address |
| LoaderCommands.DataRequestSize | ESPTool/Loaders/SoftLoader/SoftLoader.cs:158-168 | a data request's size is 16 + block length, modulo 2^16 |
| Port.RunFromStopsAtFirstRaise | ESPTool/Tools/FlashUploadTool.cs:21-52 | a sequence of loader calls stops at the first call that throws, with that exception, after every earlier call answered; it completes exactly when no call throws |
| Port.RunAppend | ESPTool/Tools/FlashUploadTool.cs:46-52 | running two call sequences back to back: the second runs only when the first completed, against the replies the first left |
| Port.RunOne | ESPTool/Loaders/Interfaces/ILoader.cs:10-14 | a single call completes or throws as its reply says |
| Port.LoaderPort.constructor | ESPTool/Loaders/Interfaces/ILoader.cs:10-14 | a new loader has received no calls and holds the device's replies in order |
| Port.LoaderPort.Invoke | ESPTool/Loaders/Interfaces/IFlashLoader.cs:8-10 | each call is recorded in order and receives the next reply; a silent device cancels the call |
| StubLoader.FailureOf | ESPTool/Loaders/SoftLoader/SoftLoader.cs:39-40 | a failed call throws InvalidOperationException exactly for the stub-only commands (baud change, MD5, compressed flash, erase) and a plain exception otherwise (lines 58-59, 78-79, 98-99, 114-115, 128-129, 151-152, 257-258) |
| StubLoader.Answered | ESPTool/Loaders/SoftLoader/SoftLoader.cs:57-61 | a received response returns exactly when Success is set; the value is the response's; the MD5 call returns at most the first 16 payload bytes |
| StubLoader.ReplyTo | ESPTool/Loaders/SoftLoader/SoftLoader.cs:249-272 | a call returns exactly when a frame of the call's own opcode arrives with Success; its value is frame bytes 4-7; it is cancelled exactly when the wait is |
| StubLoader.ReadRegisterReturnsValue | ESPTool/Loaders/SoftLoader/SoftLoader.cs:261-273 | a register read that returns carries a read-register reply's value word |
| StubLoader.ErrorStatusThrows | ESPTool/Loaders/SoftLoader/SoftLoaderCommandExecutor.cs:84-91 | a reply whose stub status byte is an error makes every call throw, with the call's own exception kind when the opcode matches |
| StubLoader.ChangeBaudCarriesOldRate | ESPTool/Loaders/SoftLoader/SoftLoader.cs:30-36 | the stub's baud request carries the new rate and then the current rate |
| StubLoader.SoftLoader.constructor | ESPTool/Loaders/SoftLoader/SoftLoader.cs:17-21 | the loader talks over the communicator it is given |
| StubLoader.SoftLoader.Execute | ESPTool/Loaders/SoftLoader/SoftLoader.cs:30-273 | one call clears the input, writes the call's request frame, reads one reply and returns or throws as ReplyTo says |
| StubLoader.SoftLoader.WaitForOhai | ESPTool/Loaders/SoftLoader/SoftLoader.cs:281-289 | the wait ends as Ohai.Await says on the reads pending |
| RomLoader.RequestFor | ESPTool/Loaders/ESP32BootLoader/ESP32Loader.cs:187-193 | the ROM loader sends the common request for every call, except that the baud change's second word is 0 |
| RomLoader.FailureOf | ESPTool/Loaders/ESP32BootLoader/ESP32Loader.cs:196-197 | a failed baud change throws InvalidOperationException; every other failed call a plain exception (lines 39-40, 59-60, 75-76, 94-95, 110-111, 130-131, 145-146, 157-158) |
| RomLoader.ReplyTo | ESPTool/Loaders/ESP32BootLoader/ESP32Loader.cs:137-160 | a call returns exactly when a frame of its opcode arrives with Success, with frame bytes 4-7 as value; otherwise the call's exception, or cancellation exactly when the wait is cancelled |
| RomLoader.SynchronizeReply | ESPTool/Loaders/ESP32BootLoader/ESP32BootLoader.cs:134-143 | the later revision's synchronisation returns the Success flag of a SYNC reply and throws only when no matching reply arrives |
| RomLoader.SynchronizeAgreesWithSync | ESPTool/Loaders/ESP32BootLoader/ESP32BootLoader.cs:134-143 | the returning and the throwing synchronisation agree: true exactly when the throwing one returns, false exactly when it throws a plain exception |
| RomLoader.IgnoresOldRate | ESPTool/Loaders/ESP32BootLoader/ESP32BootLoader.cs:165-171 | the current rate the caller passes does not affect the ROM baud request, whose second word is 0 |
| RomLoader.BaudRequestsDiffer | ESPTool/Loaders/ESP32BootLoader/ESP32Loader.cs:187-193 | whenever the current rate is not 0 modulo 2^32, the ROM and stub baud requests differ |
| RomLoader.Esp32BootLoader.constructor | ESPTool/Loaders/ESP32BootLoader/ESP32Loader.cs:16-20 | the loader talks over the communicator it is given |
| RomLoader.Esp32BootLoader.Execute | ESPTool/Loaders/ESP32BootLoader/ESP32Loader.cs:28-160 | one call clears the input, writes the ROM request, reads one reply and returns or throws as ReplyTo says |
| RomLoader.Esp32BootLoader.WaitForOhai | ESPTool/Loaders/ESP32BootLoader/ESP32Loader.cs:169-177 | the wait ends as Ohai.Await says on the reads pending |
| RomLoader.BootLoader.constructor | ESPTool/Loaders/ESP32BootLoader/ESP32BootLoader.cs:15-19 | the loader talks over the communicator it is given |
| RomLoader.BootLoader.Execute | ESPTool/Loaders/ESP32BootLoader/ESP32BootLoader.cs:25-176 | one call clears the input, writes the ROM request, reads one reply and returns or throws as ReplyTo says |
| RomLoader.BootLoader.Synchronize | ESPTool/Loaders/ESP32BootLoader/ESP32BootLoader.cs:134-143 | one SYNC exchange whose result is SynchronizeReply of the reply read |
| LegacyLoader.RomToCommand | ESPTool/Loaders/Loader.cs:178-196 | the header fields come from the frame; Success is set exactly when payload byte Size-4 exists and is 0; the error is byte Size-3 when present, else 0 |
| LegacyLoader.SoftToCommand | ESPTool/Loaders/SoftLoader.cs:74-92 | as RomToCommand but with Success from payload byte Size-2 and the error from byte Size-1 |
| LegacyLoader.SoftPositionsReversed | ESPTool/Loaders/SoftLoader.cs:84-85 | there is a reply the oldest stub parse accepts and both later stub parses reject |
| LegacyLoader.DefaultReply | ESPTool/Loaders/Loader.cs:151 | the reply returned when no frame arrives is unsuccessful with error UnknownError |
| LegacyLoader.DoFrameReply | ESPTool/Loaders/Loader.cs:149-176 | a received frame is parsed; a cancelled or missing reply gives the default reply; only a link failure throws |
| LegacyLoader.ReplyTo | ESPTool/Loaders/Loader.cs:105-122 | the base loader refuses baud change and compressed flash with a plain exception; every other call yields DoFrame's reply |
| LegacyLoader.CancelledCallReportsUnknown | ESPTool/Loaders/Loader.cs:171-175 | a cancelled call that is sent never throws and reports an unsuccessful reply |
| LegacyLoader.Loader.constructor | ESPTool/Loaders/Loader.cs:18-21 | a new loader is the ROM variant on its own link |
| LegacyLoader.Loader.Soft | ESPTool/Loaders/SoftLoader.cs:14-17 | the stub variant shares the given loader's link (Loader.cs:23-26) |
| LegacyLoader.Loader.Execute | ESPTool/Loaders/Loader.cs:149-176 | a refused call sends nothing; any other call writes its request frame without clearing stale input and takes the next frame as reply |
| LegacyLoader.Loader.WaitForOhai | ESPTool/Loaders/Loader.cs:132-147 | the wait returns true once OHAI arrives, as Ohai.Await says, and throws when cancelled |
| LegacyLoader.Esp32ChangeBaudReply | ESPTool/Loaders/ESP32Loader.cs:22-33 | the ESP32 baud change succeeds exactly when a reply with Success arrives; cancellation throws as cancellation, everything else as InvalidOperationException |
| LegacyLoader.Esp32ChangeBaud | ESPTool/Loaders/ESP32Loader.cs:22-33 | one exchange sending the new rate and 0, with the result Esp32ChangeBaudReply gives |
| Ohai.Await | ESPTool/Loaders/SoftLoader/SoftLoader.cs:281-289 | the wait succeeds exactly when an OHAI frame arrives before any cancelled or failed read, consuming the reads up to it; otherwise it fails with cancellation or an I/O fault |
| Ohai.NoiseIsSkipped | ESPTool/Loaders/SoftLoader/SoftLoader.cs:285-288 | null frames and other frames ahead of OHAI change only how many reads are consumed |
| Ohai.WaitForOhai | ESPTool/Loaders/SoftLoader/SoftLoader.cs:281-289 | the read loop ends with the outcome and the remaining input Await gives |
| ChipDetect.FirstMatch | ESPTool/Tools/ChipTypeDetectTool.cs:21 | FirstOrDefault: the index of the first configured device whose magic value is the one read, and none exactly when no device has it |
| ChipDetect.ChipOfFirstMatch | ESPTool/Tools/ChipTypeDetectTool.cs:21-22 | a matching device that no earlier device shadows is the chip reported |
| ChipDetect.ChipOfNoMatch | ESPTool/Tools/ChipTypeDetectTool.cs:22 | when no device has the value read, the chip is reported as Unknown |
| ChipDetect.ChipOfAppend | ESPTool/Tools/ChipTypeDetectTool.cs:21-22 | devices listed after the first match do not change the answer; when the first list has no match, the answer is the second list's |
| ChipDetect.DetectChipType | ESPTool/Tools/ChipTypeDetectTool.cs:16-23 | one read of register 0x40001000; an exception from it propagates, otherwise the chip is ChipOf the value read |
| ChangeBaud.ChangeBaudrateTool.constructor | ESPTool/Tools/ChangeBaudrateTool.cs:10-14 | the tool keeps the link and the loader it is given |
| ChangeBaud.ChangeBaudrateTool.ChangeBaudRate | ESPTool/Tools/ChangeBaudrateTool.cs:15-23 | asking for the current rate does nothing; otherwise the loader is asked with the new and the current rate, and the host switches to the new rate only when that call returns, so success leaves the link at exactly the requested rate and failure at the old one |
| Devices.SyncFrom | ESPTool/Devices/Device.cs:51-81 | the retry loop makes between one and 100 synchronisation calls from the attempt it starts at |
| Devices.SyncSucceedsIff | ESPTool/Devices/Device.cs:57-69 | synchronisation reports OK exactly when some attempt within the first 100 succeeds, every earlier attempt having failed with the caller's token not cancelled |
| Devices.SyncCancelsAfterFailure | ESPTool/Devices/Device.cs:70-76 | a failed attempt seen after the caller cancelled ends the loop with TaskCanceled, right after that attempt |
| Devices.SyncGivesUpWithLast | ESPTool/Devices/Device.cs:57-80 | after 100 failed attempts without cancellation the loop returns the last attempt's failure |
| Devices.SyncResultIsAnAttempts | ESPTool/Devices/Device.cs:53-80 | the initial UnknownError value, which reports success, never escapes: the result is OK, TaskCanceled or an attempt's failure |
| Devices.Device.constructor | ESPTool/Devices/Device.cs:17-22 | a new device holds the base ROM loader |
| Devices.Device.Copy | ESPTool/Devices/Device.cs:24-27 | the copy holds the same loader, and so the same link |
| Devices.Device.Sync | ESPTool/Devices/Device.cs:51-81 | the loop's result and the calls it makes are exactly SyncRun's; a thrown exception propagates |
| Devices.Device.ReadRegister | ESPTool/Devices/Device.cs:83-86 | one register read whose status and value are the loader's answer |
| Devices.Device.DetectChipType | ESPTool/Devices/Device.cs:89-94 | one read of register 0x40001000, passed on with its status and value |
| Devices.Device.ChangeBaud | ESPTool/Devices/Device.cs:96-106 | the loader call carries the new and the current rate; the line switches to the new rate exactly when the loader reports success, and the loader's result is returned |
| Devices.Device.UploadToRam | ESPTool/Devices/Device.cs:108-111 | the base device answers UnsupportedByLoader |
| Devices.Device.UploadToFlash | ESPTool/Devices/Device.cs:113-116 | the base device answers UnsupportedByLoader |
| Devices.Device.UploadToFlashDeflated | ESPTool/Devices/Device.cs:118-121 | the base device answers UnsupportedByLoader |
| Devices.Device.StartStubloader | ESPTool/Devices/Device.cs:123-126 | the base device answers UnsupportedByLoader |
| Devices.Device.EraseFlash | ESPTool/Devices/Device.cs:128-131 | the base device answers UnsupportedByLoader |
| BootloaderTool.LoopFrom | ESPTool/Tools/BootloaderTool.cs:32-61 | the loop from a given attempt on runs at most until attempt 100 |
| BootloaderTool.LoopSucceedsIff | ESPTool/Tools/BootloaderTool.cs:34-58 | the loop returns true exactly when some attempt within the first 100 succeeds before the caller cancels, every earlier attempt having answered false or timed out |
| BootloaderTool.LoopGivesUpIff | ESPTool/Tools/BootloaderTool.cs:34-60 | the loop returns false exactly when every remaining attempt answers false or times out and the caller never cancels |
| BootloaderTool.LoopEndsAtSuccess | ESPTool/Tools/BootloaderTool.cs:48-49 | an attempt that succeeds is the last one made |
| BootloaderTool.LoopCases | ESPTool/Tools/BootloaderTool.cs:36-53 | one attempt, for any attempt outcomes: the caller's cancellation throws before it, success returns true, any exception other than a timeout propagates, false or a timeout moves on to the next attempt |
| BootloaderTool.BootloaderTool.constructor | ESPTool/Tools/BootloaderTool.cs:12-16 | the tool keeps the link it is given |
| BootloaderTool.BootloaderTool.Synchronize | ESPTool/Tools/BootloaderTool.cs:32-61 | the loop's outcome and the reads it consumes are exactly SyncRun's |
| BootloaderTool.BootloaderTool.SyncStep | ESPTool/Tools/BootloaderTool.cs:36-57 | one pass: a cancelled caller token stops the loop before any read; otherwise one attempt consumes one read, and a success or an exception other than a timeout stops the loop with that outcome while false or a timeout goes on to the next attempt, as LoopFrom prescribes |
| BootloaderTool.BootloaderTool.Start | ESPTool/Tools/BootloaderTool.cs:18-30 | a new bootloader on this link is returned exactly when the loop returns true; a loop that returns false throws a plain exception; an exception from the loop propagates |
| Chunking.CeilDivBounds | ESPTool/Tools/FlashUploadTool.cs:24 | the block count covers the size, one block fewer would not, and it is 0 exactly for an empty segment |
| Chunking.BlockStart | ESPTool/Tools/FlashUploadTool.cs:28-31 | every block of the count starts inside the segment and the position after the last is at or past its end |
| Chunking.UintCeilBlocksIsCeil | ESPTool/Tools/FlashUploadTool.cs:24 | without wrap-around the 32-bit formula is the ceiling of size over block size |
| Chunking.UintCeilBlocksWraps | ESPTool/Tools/FlashUploadTool.cs:24 | with block size 0xFFFFFFFF the 32-bit sum wraps and two bytes get no block at all |
| Chunking.RemainderBlocks | ESPTool/Tools/UploadFlashDeflatedTool.cs:28-30 | the quotient plus one for a remainder is the ceiling of size over block size |
| Chunking.PayloadAppend | ESPTool/Tools/FlashUploadTool.cs:28-40 | the data carried by two call sequences back to back is the first's followed by the second's |
| Chunking.DataCallsNumbered | ESPTool/Tools/FlashUploadTool.cs:28-40 | whatever the stream holds, the loop makes at most the remaining block calls, all data calls of the region, numbered on from the block it starts at |
| Chunking.BlockStep | ESPTool/Tools/FlashUploadTool.cs:30-31 | each block of the count is non-empty, at most a block long, and consumes its length of what remains |
| Chunking.BlockEnd | ESPTool/Tools/FlashUploadTool.cs:28 | after the last block nothing remains |
| Chunking.DataCallsCover | ESPTool/Tools/FlashUploadTool.cs:28-40 | with enough data the loop sends exactly the remaining blocks, which together carry exactly the remaining bytes in order |
| Chunking.DataCallsShortStream | ESPTool/Tools/FlashUploadTool.cs:34-36 | with too little data the loop stops early at the short read, having sent a prefix of the stream |
| Chunking.Perform | ESPTool/Tools/FlashUploadTool.cs:21-44 | a step's calls run until one throws; it completes only when every call returned and the step raised nothing itself |
| Chunking.ThenAssoc | ESPTool/Tools/FlashUploadTool.cs:46-52 | sequencing steps is associative |
| Chunking.PerformThen | ESPTool/Tools/FlashUploadTool.cs:46-52 | the second step runs only when the first completed, against the replies the first left |
| Chunking.PerformedThen | ESPTool/Tools/FlashUploadTool.cs:46-52 | the loader state after two performed steps is that of their sequence; a failed first step is the whole result |
| Chunking.PerformedRaise | ESPTool/Tools/UploadFlashDeflatedTool.cs:28 | a step that raises before any call leaves the loader untouched |
| Chunking.PerformedNothing | ESPTool/Tools/FirmwareUploadTool.cs:32-44 | a step without calls completes and leaves the loader untouched |
| Chunking.SegmentPlanShape | ESPTool/Tools/FlashUploadTool.cs:21-44 | with the intended count and enough data, a segment is one begin call announcing the block count, then data calls numbered from 0 that carry exactly the segment's bytes |
| Chunking.SendBlocks | ESPTool/Tools/FlashUploadTool.cs:28-40 | the block loop makes exactly the data calls DataCalls lists, stopping at the first that throws |
| Chunking.SendSegment | ESPTool/Tools/FlashUploadTool.cs:21-44 | a begin call, then the block loop unless the begin call threw, as SegmentPlan says |
| UploadTools.StreamUploadShape | ESPTool/Tools/FlashUploadTool.cs:21-44 | with a block size that is not 0 and does not wrap, and enough data, Upload announces the ceiling of size over block size and sends exactly the first size bytes in data calls numbered from 0 |
| UploadTools.StreamUploadSendsNoEnd | ESPTool/Tools/FlashUploadTool.cs:21-44 | Upload never sends an end call |
| UploadTools.AndExecuteEndsOnce | ESPTool/Tools/FlashUploadTool.cs:46-52 | UploadAndExecute after an upload that raised nothing ends with exactly one end call, flag 0 and the entry point, after every upload call |
| UploadTools.CountNoEnd | ESPTool/Tools/FlashUploadTool.cs:51 | appending one end call to calls without any gives exactly one end call |
| UploadTools.SendEnd | ESPTool/Tools/FlashUploadTool.cs:51 | one end call with the given flag and entry point |
| UploadTools.UploadStream | ESPTool/Tools/UploadRamTool.cs:18-41 | Upload with the 32-bit ceiling formula; a zero block size divides by zero before any call |
| UploadTools.UploadStreamAndExecute | ESPTool/Tools/UploadRamTool.cs:43-49 | the upload, then the end call with flag 0 unless the upload threw |
| UploadTools.FlashUploadTool.constructor | ESPTool/Tools/FlashUploadTool.cs:11-19 | a new tool uses block size 1024 |
| UploadTools.FlashUploadTool.Upload | ESPTool/Tools/FlashUploadTool.cs:21-44 | a plain flash begin, then the block loop, as StreamUpload says |
| UploadTools.FlashUploadTool.UploadAndExecute | ESPTool/Tools/FlashUploadTool.cs:46-52 | the upload, then a flash end call with flag 0 |
| UploadTools.UploadRamTool.constructor | ESPTool/Tools/UploadRamTool.cs:10-16 | a new tool uses block size 1024 |
| UploadTools.UploadRamTool.Upload | ESPTool/Tools/UploadRamTool.cs:18-41 | a RAM begin, then the block loop, as StreamUpload says |
| UploadTools.UploadRamTool.UploadAndExecute | ESPTool/Tools/UploadRamTool.cs:43-49 | the upload, then a RAM end call with flag 0 |
| UploadTools.RamUploadTool.constructor | ESPTool/Tools/RamUploadTool.cs:14-18 | the tool keeps the device configuration's block size |
| UploadTools.RamUploadTool.Upload | ESPTool/Tools/RamUploadTool.cs:20-44 | a RAM upload whose block size is the configured FlashBlockSize cast to 32 bits |
| UploadTools.RamUploadTool.UploadAndExecute | ESPTool/Tools/RamUploadTool.cs:46-52 | the upload, then a RAM end call with flag 0 |
| UploadTools.DeflatedUploadShape | ESPTool/Tools/UploadFlashDeflatedTool.cs:20-52 | the compressed upload announces the uncompressed size but the number of compressed blocks, and its data calls carry the whole compressed stream |
| UploadTools.UploadFlashDeflatedTool.constructor | ESPTool/Tools/UploadFlashDeflatedTool.cs:15-18 | a new tool uses block size 1024 |
| UploadTools.UploadFlashDeflatedTool.Upload | ESPTool/Tools/UploadFlashDeflatedTool.cs:20-52 | the input is compressed first; then a compressed-flash begin and the block loop over the compressed bytes, as DeflatedUpload says |
| UploadTools.UploadFlashDeflatedTool.UploadAndExecute | ESPTool/Tools/UploadFlashDeflatedTool.cs:54-60 | the upload, then a compressed-flash end call with flag 0 |
| FirmwareUpload.Prepared | ESPTool/Tools/FirmwareUploadTool.cs:55-63 | each segment keeps its offset; its stream is the compressed data in FlashDeflated mode and the data as it is otherwise |
| FirmwareUpload.BeginsAppend | ESPTool/Tools/FirmwareUploadTool.cs:32-44 | the begin calls of two call sequences back to back add up |
| FirmwareUpload.SegmentsUploadShape | ESPTool/Tools/FirmwareUploadTool.cs:32-44 | with a known method, a non-zero block size and no wrap-around, the segment loop raises nothing, sends one begin per segment and no end call, and its data calls carry every segment's stream in order |
| FirmwareUpload.SegmentUploadShape | ESPTool/Tools/FirmwareUploadTool.cs:53-88 | one segment under the same conditions: no exception, one begin, no end call, exactly the segment's stream as data |
| FirmwareUpload.BeginsOfData | ESPTool/Tools/FirmwareUploadTool.cs:73-87 | data calls contain no begin call |
| FirmwareUpload.FirmwareUploadShape | ESPTool/Tools/FirmwareUploadTool.cs:26-50 | the whole upload: one begin per segment, every segment's data in order, and a single end call, last, with the execute flag (1 or 0) and the entry point |
| FirmwareUpload.UndefinedMethodSendsNothing | ESPTool/Tools/FirmwareUploadTool.cs:103 | an upload method outside the three sends no call: it throws at the first begin, or at the end when there are no segments (after a division by zero for block size 0) |
| FirmwareUpload.DeflatedUploadCarriesCompressed | ESPTool/Tools/FirmwareUploadTool.cs:58-70 | in FlashDeflated mode the data calls carry the compressed streams and the first begin announces the compressed length and its block count |
| FirmwareUpload.SegmentLoopStep | ESPTool/Tools/FirmwareUploadTool.cs:32-44 | one turn of the segment loop either extends what is done or, failing, decides the whole upload |
| FirmwareUpload.SendFirmware | ESPTool/Tools/FirmwareUploadTool.cs:26-50 | the segment loop and the end call make exactly the calls FirmwareUpload lists, stopping at the first exception |
| FirmwareUpload.SendSegmentOf | ESPTool/Tools/FirmwareUploadTool.cs:53-88 | one segment: block count by the 32-bit ceiling formula, the method's begin and the block loop, as SegmentUpload says |
| FirmwareUpload.SendEndOf | ESPTool/Tools/FirmwareUploadTool.cs:125-140 | the end call of the method's family; an undefined method throws |
| FirmwareUpload.FirmwareUploadTool.constructor | ESPTool/Tools/Firmware/FirmwareUploadConfig.cs:5-7 | block size 1024 and no execution by default |
| FirmwareUpload.FirmwareUploadTool.UploadFirmware | ESPTool/Tools/FirmwareUploadTool.cs:26-50 | the prepared segments are uploaded as FirmwareUpload says |
| FirmwareUpload.FirmwareSender.constructor | ESPTool/Tools/FirmwareSender.cs:8-18 | block size 1024 and no execution by default |
| FirmwareUpload.FirmwareSender.UploadFirmware | ESPTool/Tools/FirmwareSender.cs:20-58 | the segments are sent as they are, with the block size cast to 32 bits, as FirmwareUpload says |
| Esp32Device.StepResult | ESPTool/Devices/ESP32.cs:103-112 | a call lets the upload go on exactly when it answers with Success and, for the digest request, with the digest of the segment's data; a differing digest gives MD5Mismatch |
| Esp32Device.Check | ESPTool/Devices/ESP32.cs:27-58 | the steps run while the result is a success; a successful result means every step ran |
| Esp32Device.CheckSucceedsIff | ESPTool/Devices/ESP32.cs:27-58 | an operation succeeds exactly when every one of its steps passes |
| Esp32Device.CheckStopsAtFirstRefusal | ESPTool/Devices/ESP32.cs:40 | the first step that does not pass ends the operation with that step's result, and no later call is made |
| Esp32Device.CheckAppend | ESPTool/Devices/ESP32.cs:28-56 | two step sequences back to back: the second runs only while the first left a success, against the replies the first left |
| Esp32Device.CheckedThen | ESPTool/Devices/ESP32.cs:28-56 | the loader state after two checked step sequences is that of their concatenation; an exception in the first is the whole result |
| Esp32Device.CheckedStops | ESPTool/Devices/ESP32.cs:30 | once the result is not a success, later steps make no call |
| Esp32Device.BlockWithin | ESPTool/Devices/ESP32.cs:42-46 | every block of the count lies inside the segment and is at most a block long |
| Esp32Device.SegmentBlock | ESPTool/Devices/ESP32.cs:42-48 | block i of a segment is a data call numbered i carrying the segment bytes from i times the block size, at most a block long |
| Esp32Device.BlockCalls | ESPTool/Devices/ESP32.cs:34-37 | a segment has size over block size blocks, plus one for a remainder |
| Esp32Device.BlocksFrom | ESPTool/Devices/ESP32.cs:40-49 | cutting blocks out of the array is the same as reading them one after another from a stream over it |
| Esp32Device.BlockCallAt | ESPTool/Devices/ESP32.cs:42-48 | block i carries exactly the bytes from i times the block size for the block's length |
| Esp32Device.BlockCallsCover | ESPTool/Devices/ESP32.cs:32-49 | the blocks of a segment are numbered from 0, there are as many as the ceiling of size over block size, and together they carry exactly the segment's data |
| Esp32Device.SegmentsStepsAppend | ESPTool/Devices/ESP32.cs:28-51 | the steps for two segment lists back to back are the first's followed by the second's |
| Esp32Device.SegmentCallsShape | ESPTool/Devices/ESP32.cs:32-49 | a segment's calls hold one begin, no end call, and carry exactly its data |
| Esp32Device.SegmentStepsShape | ESPTool/Devices/ESP32.cs:69-114 | the same for a flashed segment, whose only digest check compares the chip's MD5 with the MD5 of the segment's own data |
| Esp32Device.SegmentsStepsShape | ESPTool/Devices/ESP32.cs:66-115 | all segments: one begin per segment, no end call, every segment's data in order, and each digest check against its own segment |
| Esp32Device.ImageStepsShape | ESPTool/Devices/ESP32.cs:117-120 | a whole upload ends with one end call, last, flag 0 to run the image and 1 not to, with the image's entry point |
| Esp32Device.Esp32.constructor | ESPTool/Devices/ESP32.cs:19-23 | the device keeps the given device's link and switches to the ESP32 ROM loader |
| Esp32Device.Esp32.RunStep | ESPTool/Devices/ESP32.cs:39-48 | one call, whose result is StepResult of the reply |
| Esp32Device.Esp32.WriteSegment | ESPTool/Devices/ESP32.cs:32-49 | a segment's begin and block loop, as Check says of its calls |
| Esp32Device.Esp32.WriteBlocks | ESPTool/Devices/ESP32.cs:40-49 | the block loop runs while the result is a success |
| Esp32Device.Esp32.WriteBlock | ESPTool/Devices/ESP32.cs:42-48 | one block, cut from the segment at i times the block size |
| Esp32Device.Esp32.UploadSegments | ESPTool/Devices/ESP32.cs:28-51 | the segment loop, each segment only while the result is a success |
| Esp32Device.Esp32.NextSegment | ESPTool/Devices/ESP32.cs:30-50 | one turn of the segment loop |
| Esp32Device.Esp32.UploadImage | ESPTool/Devices/ESP32.cs:25-58 | the segment loop and then, while the result is a success, the end call |
| Esp32Device.Esp32.SegmentWithDigest | ESPTool/Devices/ESP32.cs:71-114 | a flashed segment, then its MD5 request, compared with the MD5 of its data |
| Esp32Device.Esp32.UploadToRam | ESPTool/Devices/ESP32.cs:25-59 | a RAM upload in blocks of 0x1800 bytes, as Check says of RamSteps |
| Esp32Device.Esp32.UploadToFlash | ESPTool/Devices/ESP32.cs:61-123 | a flash upload in blocks of 0x400 bytes with a digest check per segment, as Check says of FlashSteps |
| Esp32Device.Esp32.StartStubloader | ESPTool/Devices/ESP32.cs:132-148 | the stub is uploaded to RAM and run; only if that succeeds is the OHAI greeting awaited; the device switches to the stub loader exactly when both succeed |
| Esp32Device.Esp32.EraseFlash | ESPTool/Devices/ESP32.cs:150-154 | one erase call whose answer is the result |
| FlashRead.Stopped | ESPTool/Tools/ReadFlashTool.cs:90-110 | when the data loop does not go on, it ends with at most one frame taken in, one acknowledgement per frame, and succeeds exactly when the count has reached the size |
| FlashRead.DataPhase | ESPTool/Tools/ReadFlashTool.cs:88-95 | the data loop sends one acknowledgement per frame it takes in, and on success every frame was acknowledged |
| FlashRead.DataPhaseStep | ESPTool/Tools/ReadFlashTool.cs:90-94 | while the count is below the size and a frame arrives and is acknowledged, the loop takes the frame, acknowledges the new 32-bit count and goes on from it |
| FlashRead.DataPhaseStopped | ESPTool/Tools/ReadFlashTool.cs:90-110 | when the loop does not go on, its result is the stopping outcome |
| FlashRead.DataPhaseFrames | ESPTool/Tools/ReadFlashTool.cs:101-105 | the k-th frame taken in is the k-th frame the port delivered, in order |
| FlashRead.DataPhaseAcks | ESPTool/Tools/ReadFlashTool.cs:107 | each acknowledgement carries the running count after its frame, with uint wrap-around |
| FlashRead.DataPhaseStops | ESPTool/Tools/ReadFlashTool.cs:88-95 | on success the final count is the start plus the length of all the data (mod 2^32), it is at least the size, and every frame was received while the count was still below the size |
| FlashRead.DataPhaseFits | ESPTool/Tools/FlashDownloadTool.cs:51-55 | with a buffer of `room` bytes the data taken in never exceeds the buffer |
| FlashRead.AckCountsIncrease | ESPTool/Tools/ReadFlashTool.cs:107 | without wrap-around the acknowledged counts never decrease, and grow strictly after every non-empty frame |
| FlashRead.AckValue | ESPTool/Tools/ReadFlashTool.cs:107 | without wrap-around the k-th acknowledgement is the start count plus the bytes of the first k+1 frames |
| FlashRead.SurplusAccepted | ESPTool/Tools/ReadFlashTool.cs:90-92 | a frame longer than the bytes still wanted is taken whole: a 2-byte frame for a 1-byte read ends the loop with count 2 |
| FlashRead.DigestsFromIff | ESPTool/Tools/ReadFlashTool.cs:124-133 | the comparison from byte i succeeds exactly when bytes i..15 of both digests agree, and never indexes out of range on digests of 16 bytes or more |
| FlashRead.DigestsMatchIff | ESPTool/Tools/ReadFlashTool.cs:118-134 | verification passes exactly when both digests have at least 16 bytes and their first 16 bytes are equal; a difference in those raises InvalidOperation |
| FlashRead.CompareDigests | ESPTool/Tools/ReadFlashTool.cs:124-133 | the byte-by-byte loop yields the comparison defined by the digest function |
| FlashRead.ReadFlashCalls | ESPTool/Tools/ReadFlashTool.cs:86-94 | a read sends FlashReadBegin with the address, size, block size and in-flight limit first, and only acknowledgements after it |
| FlashRead.ReadFlashSucceeds | ESPTool/Tools/ReadFlashTool.cs:77-97 | a successful read received at least `size` bytes (without wrap-around), and the frame after the data is a digest whose first 16 bytes equal the MD5 of all the data |
| FlashRead.PhaseLeavesReads | ESPTool/Tools/ReadFlashTool.cs:96-120 | after a successful data loop the next frame is the one following the data frames, which is the digest frame |
| FlashRead.Sink.constructor | ESPTool/Tools/ReadFlashTool.cs:77 | a new output stream is empty and keeps whether it is writable |
| FlashRead.Sink.Write | ESPTool/Tools/ReadFlashTool.cs:60 | writing appends the bytes to the stream |
| FlashRead.HashingSink.constructor | ESPTool/Tools/ReadFlashTool.cs:31-35 | the MD5 stream wraps its base stream and has hashed nothing |
| FlashRead.HashingSink.Write | ESPTool/Tools/ReadFlashTool.cs:63-67 | writing both hashes the bytes and appends them to the base stream |
| FlashRead.ReadFlashTool.constructor | ESPTool/Tools/ReadFlashTool.cs:10-21 | the tool keeps its loader and communicator, with sector and block size 4096 and one block in flight |
| FlashRead.ReadFlashTool.ReadFlash | ESPTool/Tools/ReadFlashTool.cs:77-97 | a null stream raises ArgumentNull and a non-writable one raises BadArgument, both before any traffic; otherwise the outcome, calls, frames consumed and bytes written are those of the read run |
| FlashRead.ReadFlashTool.Transfer | ESPTool/Tools/ReadFlashTool.cs:84-96 | the begin call followed by the data and digest phases performs the read run |
| FlashRead.ReadFlashTool.ReadAfterBegin | ESPTool/Tools/ReadFlashTool.cs:88-96 | after the begin call the data loop and digest check perform the rest of the read run |
| FlashRead.ReadFlashTool.ReceiveData | ESPTool/Tools/ReadFlashTool.cs:88-95 | the while loop performs the data loop from count 0: same outcome, acknowledgements, frames consumed, and every frame both hashed and written |
| FlashRead.ReadFlashTool.ReceiveFrame | ESPTool/Tools/ReadFlashTool.cs:99-110 | one block read: on success it consumed one frame, wrote and hashed it, acknowledged the new count and returns it; on failure it ends the loop as the stopping outcome says |
| FlashRead.ReadFlashTool.VerifyMd5 | ESPTool/Tools/ReadFlashTool.cs:118-134 | consumes one frame and yields the digest check of the stream's MD5 against it |
| FlashDownload.ReadSize | ESPTool/Tools/FlashDownloadTool.cs:51-55 | the bytes asked for are at most `count` and at most what is left of the range, and equal one of the two |
| FlashDownload.Splice | ESPTool/Tools/FlashDownloadTool.cs:67 | copying a frame into the buffer puts the frame at the offset and leaves every other byte as it was |
| FlashDownload.SpliceSnoc | ESPTool/Tools/FlashDownloadTool.cs:61-74 | copying two frames one after the other at consecutive offsets equals copying their concatenation |
| FlashDownload.CopyInto | ESPTool/Tools/FlashDownloadTool.cs:67 | the copy loop leaves the buffer as the splice of the frame at the offset |
| FlashDownload.Fetched | ESPTool/Tools/FlashDownloadTool.cs:60-78 | after the begin call, the data taken in fits the buffer, and a successful read returns `size` with every frame acknowledged |
| FlashDownload.Started | ESPTool/Tools/FlashDownloadTool.cs:57-78 | the first call is FlashReadBegin with the position, the size, the block size and the in-flight limit |
| FlashDownload.DownloadRun | ESPTool/Tools/FlashDownloadTool.cs:49-79 | a read never takes in more bytes than the buffer holds from the offset, and never acknowledges more frames than it took in |
| FlashDownload.DownloadCalls | ESPTool/Tools/FlashDownloadTool.cs:49-79 | at the end of the range a read returns 0 with no call and no frame consumed; otherwise it sends the begin call for the clamped size first and then one acknowledgement of the running byte count per frame |
| FlashDownload.DownloadSucceeds | ESPTool/Tools/FlashDownloadTool.cs:49-98 | a successful read inside the range returns the clamped size, took in at least that many bytes and no more than the buffer holds, acknowledged every frame, and the next frame was a digest matching the MD5 of the data in its first 16 bytes |
| FlashDownload.WrappedRangeIsEmpty | ESPTool/Tools/FlashDownloadTool.cs:46-53 | a range whose end wraps past 2^32 (address 0xFFFFF000, size 0x2000) ends below its start, so the first read returns 0 |
| FlashDownload.FlashDownloadTool.constructor | ESPTool/Tools/FlashDownloadTool.cs:13-23 | the tool keeps its loader and communicator, with block size 4096 and one block in flight |
| FlashDownload.FlashDownloadTool.OpenFlashReadStream | ESPTool/Tools/FlashDownloadTool.cs:25-28 | opens a new stream at the address whose end is address + size with uint wrap-around |
| FlashDownload.FlashReadStream.constructor | ESPTool/Tools/FlashDownloadTool.cs:42-47 | the position starts at the address and the end is the uint sum of size and address |
| FlashDownload.FlashReadStream.Length | ESPTool/Tools/FlashDownloadTool.cs:104 | the length is the end of the range, a uint |
| FlashDownload.FlashReadStream.Position | ESPTool/Tools/FlashDownloadTool.cs:105 | the position getter yields the current position, a uint |
| FlashDownload.FlashReadStream.SetPosition | ESPTool/Tools/FlashDownloadTool.cs:105 | setting the position raises NotSupported |
| FlashDownload.FlashReadStream.Flush | ESPTool/Tools/FlashDownloadTool.cs:106 | raises NotSupported |
| FlashDownload.FlashReadStream.Seek | ESPTool/Tools/FlashDownloadTool.cs:107 | raises NotSupported |
| FlashDownload.FlashReadStream.SetLength | ESPTool/Tools/FlashDownloadTool.cs:108 | raises NotSupported |
| FlashDownload.FlashReadStream.Write | ESPTool/Tools/FlashDownloadTool.cs:109 | raises NotSupported |
| FlashDownload.FlashReadStream.Read | ESPTool/Tools/FlashDownloadTool.cs:49-79 | performs the download run: same outcome, calls and frames consumed; the buffer holds every frame taken in from the offset on and nothing else changes; the position advances by every acknowledged frame |
| FlashDownload.FlashReadStream.Start | ESPTool/Tools/FlashDownloadTool.cs:57-78 | the begin call, then the data and digest, perform the started run |
| FlashDownload.FlashReadStream.Fetch | ESPTool/Tools/FlashDownloadTool.cs:60-78 | the data loop and digest check perform the fetched run and return the size on success |
| FlashDownload.FlashReadStream.ReceiveData | ESPTool/Tools/FlashDownloadTool.cs:60-74 | the while loop performs the buffered data phase: outcome, acknowledgements, frames consumed, bytes hashed, buffer contents and position |
| FlashDownload.FlashReadStream.ReceiveFrame | ESPTool/Tools/FlashDownloadTool.cs:63-73 | one pass: a missing frame raises IOFailure, a frame that does not fit raises BadArgument, and otherwise the frame is copied, hashed and acknowledged |
| FlashDownload.FlashReadStream.TakeIn | ESPTool/Tools/FlashDownloadTool.cs:67-72 | the frame is copied at the offset and hashed, the new count acknowledged, and the position advances only when the acknowledgement returns |
| FlashDownload.FlashReadStream.VerifyMd5 | ESPTool/Tools/FlashDownloadTool.cs:82-98 | consumes one frame and yields the digest check of the MD5 of the bytes read against it |
| EFuse.WrapInt | ESPTool/Tools/EFuseTool.cs:25 | a C# `int` sum is kept in the `int` range and is exact when it fits |
| EFuse.RegistersNeededIsCeil | ESPTool/Tools/EFuseTool.cs:25 | for a size an `int` holds with room for the `+ 3`, the register count is 0 for a size that is not positive and otherwise the ceiling of size / 4 |
| EFuse.RegisterAddresses | ESPTool/Tools/EFuseTool.cs:28-30 | one address per register needed; register i is at the field's address plus 4 i, wrapping like a `uint` |
| EFuse.ReadCalls | ESPTool/Tools/EFuseTool.cs:28-31 | one register read per address, in order |
| EFuse.ReadAll | ESPTool/Tools/EFuseTool.cs:28-35 | the reads stop at the first exception; on success every address was read and one value per address returned |
| EFuse.ReadAllValues | ESPTool/Tools/EFuseTool.cs:31 | on success the i-th value is the i-th reply of the loader |
| EFuse.Words | ESPTool/Tools/EFuseTool.cs:33-34 | four bytes per register value |
| EFuse.WordsAt | ESPTool/Tools/EFuseTool.cs:33-34 | byte j of register i sits at 4 i + j, least significant byte first |
| EFuse.Take | ESPTool/Tools/EFuseTool.cs:38 | the result is the prefix of `size` bytes, all of them when fewer, none for a size that is not positive |
| EFuse.AssembleLayout | ESPTool/Tools/EFuseTool.cs:33-38 | with enough registers the field has exactly `size` bytes, byte 4 i + j being byte j of register i |
| EFuse.EFuseReadLayout | ESPTool/Tools/EFuseTool.cs:17-40 | a successful read returns exactly `size` bytes (none for a size that is not positive), byte 4 i + j being byte j of the i-th reply, little-endian |
| EFuse.EFuseTool.constructor | ESPTool/Tools/EFuseTool.cs:11-15 | the tool keeps its loader and the device's eFuse mappings |
| EFuse.EFuseTool.Read | ESPTool/Tools/EFuseTool.cs:17-40 | an unknown key raises before any call; otherwise the loop sends one register read per register until the first exception and returns the field read |
| MacAddress.Hex | ESPTool/Tools/GetAddressesTool.cs:43 | a word's `ToString("X")` form is at least one character long and made only of upper-case hexadecimal digits |
| MacAddress.HexRoundTrip | ESPTool/Tools/GetAddressesTool.cs:43 | reading the hexadecimal form back gives the word, and it starts with `0` only for zero (no leading zeros) |
| MacAddress.FormattedLayout | ESPTool/Tools/GetAddressesTool.cs:106-131 | the formatted string has one colon after every two characters except at the end: length n + ceil(n/2) - 1 for n > 0 characters, a colon at every third position and the input's characters in order elsewhere |
| MacAddress.FormattedStrips | ESPTool/Tools/GetAddressesTool.cs:106-131 | removing the colons from the formatted form of a colon-free string gives the string back |
| MacAddress.FormattedColons | ESPTool/Tools/GetAddressesTool.cs:115-124 | a non-empty colon-free string gets exactly ceil(n/2) - 1 colons |
| MacAddress.SplitAndFormat | ESPTool/Tools/GetAddressesTool.cs:106-131 | the loop returns the empty string for a null or empty input and otherwise the formatted string, odd tail included |
| MacAddress.MacStringDigits | ESPTool/Tools/GetAddressesTool.cs:37-103 | without its colons, an address is the upper word's hexadecimal form followed by the incremented lower word's |
| MacAddress.MacIncrementWraps | ESPTool/Tools/GetAddressesTool.cs:64 | the increment wraps like a `uint`: a lower word 0xFFFFFFFF plus one prints as `0` |
| MacAddress.MacPairsCollide | ESPTool/Tools/GetAddressesTool.cs:43-49 | with leading zeros dropped, the word pairs (0x12, 0x345) and (0x123, 0x45) give the same address `12:34:5` |
| MacAddress.GetAddressesTool.constructor | ESPTool/Tools/GetAddressesTool.cs:9-12 | the tool keeps its loader |
| MacAddress.GetAddressesTool.GetBaseMac | ESPTool/Tools/GetAddressesTool.cs:21-26 | one register read at 0x60007048, returning its value or exception |
| MacAddress.GetAddressesTool.GetLowerMac | ESPTool/Tools/GetAddressesTool.cs:29-34 | one register read at 0x60007044, returning its value or exception |
| MacAddress.GetAddressesTool.Address | ESPTool/Tools/GetAddressesTool.cs:37-103 | reads the upper then the lower word, stopping at the first exception, and formats both with the increment added to the lower word |
| MacAddress.GetAddressesTool.GetBaseMacAddress | ESPTool/Tools/GetAddressesTool.cs:37-52 | the address with increment 0 |
| MacAddress.GetAddressesTool.GetWiFiAPMacAddress | ESPTool/Tools/GetAddressesTool.cs:55-70 | the address with increment 1 |
| MacAddress.GetAddressesTool.GetBlueToothMacAddress | ESPTool/Tools/GetAddressesTool.cs:72-86 | the address with increment 2 |
| MacAddress.GetAddressesTool.GetEthernetAddress | ESPTool/Tools/GetAddressesTool.cs:89-103 | the address with increment 3 |
| Zlib.TrailerOfBytes | ESPTool/Utils/ZlibCompressionHelper.cs:43-49 | the four checksum bytes are B then A, each most significant byte first, so read back big-endian they give B * 65536 + A |
| Zlib.Trailer | ESPTool/Utils/ZlibCompressionHelper.cs:26-52 | the checksum is four bytes long |
| Zlib.TrailerIsAdler32 | ESPTool/Utils/ZlibCompressionHelper.cs:26-52 | the four bytes read back big-endian are the Adler-32 of the data as section 2.2 of RFC 1950 defines it |
| Zlib.EmptyTrailer | ESPTool/Utils/ZlibCompressionHelper.cs:32-49 | no data at all has the checksum `00 00 00 01` |
| Zlib.AdlerStep | ESPTool/Utils/ZlibCompressionHelper.cs:37-38 | one step of the loop keeps A as one plus the byte sum and B as the sum of the A values, both modulo 65521 |
| Zlib.ZlibOfLayout | ESPTool/Utils/ZlibCompressionHelper.cs:8-23 | a zlib stream is the header 0x78 0x9C (deflate, 32 KiB window, no dictionary, valid header check), the deflated body, and the Adler-32 of that body |
| Zlib.ZlibAsWrittenFromStart | ESPTool/Utils/ZlibCompressionHelper.cs:15-30 | from position 0 the output as written is the zlib stream of the input |
| Zlib.ZlibAsWrittenMismatch | ESPTool/Utils/ZlibCompressionHelper.cs:15-30 | from position 1 of the one-byte input `[1]` the output carries the checksum of `[1]` although nothing was deflated, so it is not a zlib stream of what was compressed |
| Zlib.InputStream.constructor | ESPTool/Utils/ZlibCompressionHelper.cs:8 | a stream over the data at a position |
| Zlib.InputStream.ReadByte | ESPTool/Utils/ZlibCompressionHelper.cs:35 | yields the byte at the position and advances, or -1 at the end without moving |
| Zlib.InputStream.ReadToEnd | ESPTool/Utils/ZlibCompressionHelper.cs:17 | yields the bytes from the position to the end and leaves the position at the end |
| Zlib.OutputStream.constructor | ESPTool/Utils/ZlibCompressionHelper.cs:8 | a new output stream is empty |
| Zlib.OutputStream.Write | ESPTool/Utils/ZlibCompressionHelper.cs:11-22 | writing appends the bytes |
| Zlib.CalculateAdler32Checksum | ESPTool/Utils/ZlibCompressionHelper.cs:26-52 | the loop over the whole stream from position 0 yields the checksum of all its data and restores the position |
| Zlib.CompressToZlibStream | ESPTool/Utils/ZlibCompressionHelper.cs:8-23 | appends the header, the deflate of the input from its position, and the checksum of the whole input; the input is left at its end |
| Zlib.CompressToZlibStreamFixed | ESPTool/Utils/ZlibCompressionHelper.cs:8-23 | appends the zlib stream of the bytes from the input's position on: the checksum covers exactly what was deflated; the input is left at its end |
| ArrayHelpers.FlattenLength | ESPTool/Helpers.cs:55-61 | the concatenation of parts is as long as the sum of their lengths |
| ArrayHelpers.ArrayCopy | ESPTool/Helpers.cs:16 | `Array.Copy` replaces `len` elements of the destination from `dstIndex` on with the source's from `srcIndex` on, and leaves the rest of the destination as it was |
| ArrayHelpers.SliceAsWritten | ESPTool/Helpers.cs:12-20 | the slice as written has exactly `length` elements |
| ArrayHelpers.SliceLayout | ESPTool/Helpers.cs:12-20 | the intended slice starts with `data[index..]` cut to `length` and holds the padding at every later position |
| ArrayHelpers.SliceAsWrittenAgrees | ESPTool/Helpers.cs:15-18 | the slice as written is the intended one when `index` is 0 or `length` fits in what is left after `index` |
| ArrayHelpers.SliceAsWrittenMissesPadding | ESPTool/Helpers.cs:17-18 | slicing `[1, 2]` from 1 to length 2 with padding 9 gives `[2, default]` where `[2, 9]` is intended |
| ArrayHelpers.SubArray | ESPTool/Helpers.cs:12-20 | the new array holds the slice as written |
| ArrayHelpers.SubArrayPadded | ESPTool/Helpers.cs:12-20 | the new array holds the intended slice: the copied part, then padding up to `length` |
| ArrayHelpers.SubArrayFrom | ESPTool/Helpers.cs:29-34 | the new array is `data[index..]`, of length `data.Length - index` |
| ArrayHelpers.Copy | ESPTool/Helpers.cs:36-41 | a new array equal element by element, and so in length |
| ArrayHelpers.Resize | ESPTool/Helpers.cs:48 | `Array.Resize` keeps the array when the size is unchanged and otherwise gives a new one of the new size keeping the common prefix |
| ArrayHelpers.AppendOne | ESPTool/Helpers.cs:47-49 | one pass of the loop yields the first array followed by the next |
| ArrayHelpers.Append | ESPTool/Helpers.cs:43-53 | the result is `array1` followed by every array in order, and `array1` itself is not changed |
| ArrayHelpers.Concat | ESPTool/Helpers.cs:55-61 | the result is the arrays' contents in order, as long as the sum of their lengths |
| ArrayHelpers.Populate | ESPTool/Helpers.cs:65-71 | every element of the array is set to the value, in place |

## Left out

- Serial port plumbing is not modelled: opening, closing and reopening the port, DTR/RTS pin sequences (including `BootloaderTool.StartAsync`'s reset sequence and the device's `EnterBootloader`/`Reset`), `Task.Delay` timing and the byte-level port reads. The link is an abstract source and sink of frames.
- `Communicator.ChangeBaudRate` and `ClearBuffer` act only on an open port; the model's link is always open.
- Event-based frame delivery and `TaskCompletionSource` correlation in the oldest loader are concurrency plumbing; only the reply a wait yields (a frame, or the default failed result on cancellation) is kept.
- Wall-clock timeouts become cancelled reads: a read with nothing left to deliver is cancelled. Cancellation tokens become inputs that say from which attempt on the caller has cancelled.
- MD5, `DeflateStream` and the zlib/GZip helpers (`Compress`, `CompressData`, `DecompressData`, `CopyStream` in ESPTool/Helpers.cs:85-147) are library calls: MD5 and deflate are uninterpreted function parameters, and the zlib/GZip helpers are not modelled.
- `Helpers.ReadUInt32` and `GetCurrentMethodName` are stream I/O and compiler plumbing and are not modelled.
- Progress reporting uses floating-point fractions and is not modelled.
- Configuration and firmware-resource loading (JSON, base64, embedded resources) is not modelled; device configurations, eFuse mappings and firmware images are inputs.
- `FlashDownloadTool.ReadFlashAsync` only hands the stream to `Stream.CopyToAsync`, a library loop; the model covers the stream's own `ReadAsync` instead.
- FlashDownload.FlashReadStream.Read: requires `offset <= buffer.Length`; for a larger offset .NET's `Array.Copy` raises at the first frame, which the model does not represent.
- ArrayHelpers.SubArray: requires `index <= data.Length` and non-negative lengths; for other arguments .NET raises inside `Array.Copy` or the array allocation, which the model does not represent. C#'s `default(T)` is passed in as a parameter.
- Esp32Device.Esp32.UploadToFlash: assumes the caller passes a progress reporter. ESPTool/Devices/ESP32.cs:61 defaults `progress` to null and line 92 calls `progress.Report` after every flash data call without a check, so a caller that leaves it out gets a `NullReferenceException` right after the first data call, whatever the device answered. The model has no progress input and does not raise there.
- ESPTool/Devices/ESP32.cs and ESPTool/Devices/Device.cs do not compile against ESPTool/Loaders/Loader.cs as given: `SPI_FLASH_MD5` (ESP32.cs:103) and `ERASE_FLASH` (ESP32.cs:152) are not defined there, and a `ReplyCMD` is assigned to a `Result` or `Result<uint>` (ESP32.cs:80, Device.cs:85) with no conversion in the source. The model reads these calls as the loader interface's calls of the same name, and takes a reply's success flag and status as the `Result`, its value word as the register value and its data as the MD5 digest.
- Esp32Device.Esp32.StartStubloader: the source starts waiting for the OHAI frame before uploading the stub; the model reads the greeting after a successful upload, which is the same frame order on a link that delivers frames in sequence.
- FlashRead.ReadFlashTool: the `Progress`, `SectorSize` and other settable properties are plain fields; only `BlockSize` and `MaxInFlight` reach the device.
- Orchestration wrappers that only chain tools, the UI, hardware-bound tests and dead or non-compiling code (the RAM flasher and the commented-out image parser) are not modelled.

## Findings

| source | as written | input that shows it | evidently intended | confidence | as-written member | corrected member |
|---|---|---|---|---|---|---|
| ESPTool/Helpers.cs:17-18 | padding is written from position `data.Length` on, not from the end of the copied part, so with `index > 0` the positions in between keep `default(T)` | `SubArray([1, 2], 1, 2, 9)` returns `[2, 0]` | `[2, 9]`: the copied part, then padding up to `length` | not executed; high | ArrayHelpers.SliceAsWrittenMissesPadding | ArrayHelpers.SubArrayPadded |
| ESPTool/Utils/ZlibCompressionHelper.cs:15-30 | deflate reads the input from its current position, but the Adler-32 trailer is computed from position 0 over the whole input | the input `[1]` positioned at 1: nothing is deflated, yet the trailer is `00 02 00 02`, the checksum of `[1]`, instead of `00 00 00 01` | the trailer is the Adler-32 of exactly the bytes that were deflated | not executed; medium (a stream passed at position 0 is unaffected) | Zlib.ZlibAsWrittenMismatch | Zlib.CompressToZlibStreamFixed |
