# Z-Wave Serial API engine

This is a Dafny model of the Z-Wave Serial API engine in `lib/zwave/`. The engine talks to a Z-Wave controller stick over a serial line. It has six parts:

- **Stream parser.** Cuts the incoming byte stream into frames. These are single-byte ACK, NAK and CAN frames, and length-prefixed SOF frames.
- **Protocol constants.** The byte codes and name tables, and the XOR checksum each SOF frame ends with.
- **Transport layer.**
  - The framer reads a frame's header fields and payload, and fills in the checksum of an outgoing frame.
  - Transport flow control has three jobs. It acknowledges each incoming SOF frame and drops a frame that repeats the one before it. It also keeps outgoing frames in a queue, letting the next frame go only after the controller has answered.
- **Message layer.**
  - Message flow control lets one request at a time go down to the controller.
  - The node-missing layer files a response's node 0 under the node the request named.
  - The transaction matcher hands each response to the request it answers.
- **Serial API layer.** Decodes the controller's responses: version, capabilities, home id, init data, node protocol info, node information frames. It also frames outgoing Serial API requests.
- **Node layer.** Wraps a command for one node into a SendData frame with a rolling callback id. It decodes ManufacturerSpecific reports.

## Modules

One module per source file: `Protocol`, `StreamParser`, `TransportMiddleware`, `SerialApi`, `NodeSerialApi` and `MessageMiddleware`. Five small modules support them:

- `Wrappers`: Option and Result.
- `JsBuffer`: Buffer reads and `slice`.
- `HexFormat`: `toString(16)`, `toHex`, `toHex8`, `toHex32` and the space-joined hex form of a Buffer, with a reader that decodes what they print.
- `Utf8Text`: a Buffer's `toString()`, which decodes UTF-8, with the encoder that inverts it.
- `ZwaveContext`: the context records the layers pass along.

A name or text the layers compute from stored bytes is a derived field (a `const` member) of the record holding those bytes. This covers a frame's function name, a specific class name, the text of a device report and the names of a class list.

`ZwavePipeline` chains the layers in the order of `lib/zwave/index.js:61-66`, as plain method calls. The serial port is the append-only log `written`.

Where the source mutates state, the model is imperative:

- The parser's `buffer`.
- Transport flow control's `messageQueue`, `block` and `lastMessage`.
- The two fields of message flow control.
- The matcher's store.
- The server's callback id.

Those are classes with `modifies` clauses. Every loop of the source is a method with loop invariants, proved against a function that specifies its result:

- the checksum fold;
- the parser's scan;
- the capability and init-data bit loops;
- the node information class loop.

What a promise continuation does is a method of its own, called when the awaited step is done.

An exception or a promise rejection that no code handles ends the Node.js process. The ghost flag `halted` records that, and no operation runs once it is set.

JavaScript values are represented as follows:

- A byte read past the end of a payload (`undefined`) is `None`.
- Where such a byte only enters `&`, `|` or `<<`, it acts as 0.
- A number key of the Nodes object is `Option<nat>`, with `None` the key "undefined".
- A truthiness test treats 0 and `undefined` alike.
- A Payload set by a caller is a byte list or a single number.

## Model

| member | source | states |
|---|---|---|
| JsBuffer.At | lib/zwave/zwave-serial-middleware.js:71 | Definition of an index read: the byte exactly when the index is inside the buffer, and `undefined` otherwise. |
| JsBuffer.ByteAt | lib/zwave/zwave-node-middleware.js:122-124 | Definition of a byte used in a bitwise expression: the byte when present and 0 when missing. |
| JsBuffer.Slice | lib/zwave/zwave-transport-middleware.js:81 | Definition of `slice`: negative offsets count from the end, both ends are clamped, and an empty range gives an empty buffer. |
| JsBuffer.From | lib/zwave/zwave-serial-middleware.js:63 | Definition of `slice(start)`: everything from start on, or nothing past the end. |
| HexFormat.ToRadixRoundTrip | lib/zwave/zwave-serial-middleware.js:344-354 | Reading back what `toString(10)` or `toString(16)` printed gives the number. |
| HexFormat.ToRadixLength | lib/zwave/zwave-serial-middleware.js:344-354 | A number below base^k prints with at least one and at most k digits. |
| HexFormat.ToHex8RoundTrip | lib/zwave/zwave-serial-middleware.js:352-354 | toHex8 of a byte is exactly two hexadecimal digits that read back as the byte. |
| HexFormat.ToHexRoundTrip | lib/zwave/zwave-serial-middleware.js:344-346 | toHex of a 16-bit value is "0x" followed by four digits that read back as the value. |
| HexFormat.ToHex32RoundTrip | lib/zwave/zwave-serial-middleware.js:348-350 | toHex32 is eight digits, and each pair reads back as its byte. |
| HexFormat.ToHexInjective | lib/zwave/zwave-node-middleware.js:187-189 | Distinct 16-bit ids never share a toHex string. |
| HexFormat.ToHex8MissingDistinct | lib/zwave/zwave-serial-middleware.js:352-354 | A present byte never prints as the text a missing byte gives. |
| HexFormat.DecimalTextRoundTrip | lib/zwave/zwave-serial-middleware.js:137 | A byte's decimal text reads back as the byte and contains no ".". |
| Utf8Text.Decode | lib/zwave/zwave-serial-middleware.js:128 | Definition of Buffer `toString()`: UTF-8 decoding as the WHATWG Encoding Standard gives it, with U+FFFD for each ill-formed sequence; never more characters than bytes. |
| Utf8Text.DecodeEncode | lib/zwave/zwave-node-middleware.js:134 | Decoding the UTF-8 form of any text gives that text back. |
| Utf8Text.AsciiText | lib/zwave/zwave-serial-middleware.js:128 | Bytes below 0x80 decode to one character each, with the byte's value. |
| Utf8Text.NonAsciiExamples | lib/zwave/zwave-node-middleware.js:134 | C3 A9 decodes to "é", FF to U+FFFD, the cut-off E2 82 to one U+FFFD, and E2 41 to U+FFFD then "A". |
| HexFormat.Word | lib/zwave/zwave-node-middleware.js:122 | `(hi << 8) \| lo` is a 16-bit value. |
| StreamParser.LeadByteSelectsArm | lib/zwave/zwave-transport-stream-parser.js:55-83 | The lead byte selects exactly one arm of the switch, as the frame codes of lib/zwave/protocol-constants.js:252-263 differ. ACK, NAK or CAN is delivered alone and the scan goes on. SOF delivers at most one frame, an SOF frame. Any other byte delivers and keeps nothing. |
| Protocol.DuplicateKeysKeepLastEntry | lib/zwave/protocol-constants.js:619-621 | Where the function-class table repeats key 0x23, the later entry 'ReadMemory' is the one read. The same holds for generic class 0x30, which reads 'Meter'. |
| Protocol.CommandClassDuplicates | lib/zwave/protocol-constants.js:811-882 | The command classes 0x71, 0x60 and 0x8e read as their later entries: Notification, MultiInstance and MultiInstanceAssociation. |
| Protocol.GetHomeIdDisplayName | lib/zwave/protocol-constants.js:539-616 | Function code 0x20 is enumerated as GetHomeId but displayed as 'MemoryGetId'. |
| Protocol.DeviceClassExamples | lib/zwave/protocol-constants.js:340-451 | Basic class 0x04 is RoutingSlave and generic class 0x10 is SwitchBinary. Specific class (0x10, 1) is BinaryPowerSwitch. A specific byte missing from its group falls back to the generic name. |
| Protocol.SpecificClassName | lib/zwave/zwave-serial-middleware.js:94-95 | Definition of the specific class name: looked up under the generic class, with the generic class name used when the group or its entry is missing. |
| Protocol.GenerateChecksum | lib/zwave/protocol-constants.js:509-518 | The loop computes the complement of the XOR of bytes 1 up to length-2 (for a two-byte message, byte 1). |
| Protocol.ChecksumCoversInterior | lib/zwave/protocol-constants.js:509-518 | For a frame of three or more bytes, the checksum is 0xFF XOR the XOR of everything between the lead byte and the checksum slot. |
| Protocol.ChecksumIgnoresEnds | lib/zwave/protocol-constants.js:509-518 | Changing the lead byte or the checksum slot does not change the checksum. |
| Protocol.FilledIdempotent | lib/zwave/protocol-constants.js:509-518 | Filling in the checksum twice gives the same frame as filling it in once. |
| Protocol.FilledIsValid | lib/zwave/protocol-constants.js:509-518 | After the fill, bytes 1 to length-1 XOR to 0xFF. |
| Protocol.ChecksumValidIff | lib/zwave/protocol-constants.js:509-518 | A frame's XOR test passes exactly when its last byte is the checksum of the rest. |
| Protocol.TwoByteFillNotIdempotent | lib/zwave/protocol-constants.js:509-518 | On a two-byte message the fold covers the slot itself, so a second fill changes it. |
| StreamParser.ZwaveTransportStreamParser.constructor | lib/zwave/zwave-transport-stream-parser.js:38-42 | A new parser holds no bytes. |
| StreamParser.ZwaveTransportStreamParser.Transform | lib/zwave/zwave-transport-stream-parser.js:46-87 | The frames pushed and the bytes kept are those of Scan over the held bytes followed by the chunk. |
| StreamParser.ZwaveTransportStreamParser.Flush | lib/zwave/zwave-transport-stream-parser.js:89-93 | The held bytes are pushed as one chunk and the buffer is left empty. |
| StreamParser.ScanShape | lib/zwave/zwave-transport-stream-parser.js:54-85 | Every frame delivered is a one-byte ACK, NAK or CAN frame, or a whole SOF frame whose length byte is in 4..64. At most one SOF frame is delivered, and it comes last. |
| StreamParser.ScanConserves | lib/zwave/zwave-transport-stream-parser.js:49-84 | The delivered frames followed by the kept bytes are the input, except after a lead byte that starts no frame, where everything is dropped. |
| StreamParser.SplitFrameReassembled | lib/zwave/zwave-transport-stream-parser.js:66-78 | An SOF frame that arrives in two pieces is held after the first and delivered whole after the second. |
| StreamParser.OneSofFramePerChunk | lib/zwave/zwave-transport-stream-parser.js:65-79 | When two complete frames are buffered behind an SOF frame, only the first is delivered; the second waits. |
| StreamParser.BadLengthStalls | lib/zwave/zwave-transport-stream-parser.js:67-71 | An SOF with a length byte outside 4..64 delivers nothing and keeps every byte, however many more bytes arrive. |
| StreamParser.GarbageDiscards | lib/zwave/zwave-transport-stream-parser.js:80-82 | A lead byte that is neither SOF nor a one-byte frame code throws away everything held. |
| TransportMiddleware.FramerInvoke | lib/zwave/zwave-transport-middleware.js:74-83 | Frame type, length, message type and function class are bytes 0-3. The function name is the frame's derived field, the table entry for the function class. The payload is bytes 4 up to the checksum when the length byte is right, and never longer than the bytes after the header. |
| TransportMiddleware.FramerSend | lib/zwave/zwave-transport-middleware.js:86-96 | The message array is changed in place: a message longer than one byte gets its checksum in the last place, and nothing else changes. |
| TransportMiddleware.OnTheWireValid | lib/zwave/zwave-transport-middleware.js:86-96 | The framer's output passes the checksum test, keeps every byte but the last, and a second pass leaves it unchanged. |
| TransportMiddleware.FramedAfterFill | lib/zwave/zwave-transport-middleware.js:74-96 | A frame whose length byte counts its bytes after the SOF reads back, once filled, with the same header fields and payload. |
| TransportMiddleware.SelfMatchUnlessProtocolInfo | lib/zwave/zwave-transport-middleware.js:231-241 | A frame is its own duplicate exactly when it is not a GetNodeProtocolInfo frame. |
| TransportMiddleware.MatchesSymmetric | lib/zwave/zwave-transport-middleware.js:231-241 | Whether two frames are duplicates does not depend on their order. |
| TransportMiddleware.MatchesIgnoresEnds | lib/zwave/zwave-transport-middleware.js:231-241 | The duplicate test ignores the lead byte and the checksum. |
| TransportMiddleware.SingleBytesMatch | lib/zwave/zwave-transport-middleware.js:231-241 | Any two one-byte frames are duplicates of each other. |
| TransportMiddleware.DifferentFunctionNeverDuplicate | lib/zwave/zwave-transport-middleware.js:235-238 | Frames with different function bytes are never duplicates. |
| TransportMiddleware.ZwaveTransportFlowControl.constructor | lib/zwave/zwave-transport-middleware.js:154-176 | The queue starts empty and unblocked, with no last message. |
| TransportMiddleware.ZwaveTransportFlowControl.QueueModified | lib/zwave/zwave-transport-middleware.js:165-174 | When unblocked with frames waiting, it blocks and writes the head of the queue. Otherwise nothing changes. Frames leave in the order they entered. |
| TransportMiddleware.ZwaveTransportFlowControl.Invoke | lib/zwave/zwave-transport-middleware.js:180-200 | A duplicate of the last frame is dropped: no ACK, no unblock. A new SOF frame writes [ACK], unblocks and sends the next queued frame, then goes on up. Any other frame goes no further. The last message is always updated. |
| TransportMiddleware.ZwaveTransportFlowControl.Send | lib/zwave/zwave-transport-middleware.js:202-209 | A frame shorter than two bytes is written at once. A longer one joins the queue and is written at once only when writing is not blocked. |
| ZwaveContext.FreshInbound | lib/zwave/zwave-transport-server.js:108-116 | Definition of the context onData makes for each frame: the framer's fields, an empty Controller and empty Nodes. |
| SerialApi.SerialCapabilityIds | lib/zwave/zwave-serial-middleware.js:143-150 | The nested bit loop collects exactly the ids of the mask that begins at payload byte 8. |
| SerialApi.CapabilitiesSpec | lib/zwave/zwave-serial-middleware.js:137-151 | Those ids ascend. An id is present exactly when bit (id-1)%8 of byte 8+(id-1)/8 is set. |
| SerialApi.MaskIdsSpec | lib/zwave/zwave-serial-middleware.js:143-150 | A mask's ids lie in 1 to 8 times its length, ascend strictly, and each is present exactly when its bit is set. |
| SerialApi.ByteIdsSpec | lib/zwave/zwave-serial-middleware.js:200-211 | The ids of one mask byte are base + j + 1 for the set bits j, in ascending order. |
| SerialApi.MarkByteNodes | lib/zwave/zwave-serial-middleware.js:200-211 | One pass of the inner loop adds the ids of the byte's set bits to the node list, each available, and moves the node id on by 8. |
| SerialApi.InitDataNodes | lib/zwave/zwave-serial-middleware.js:197-211 | The nested loop yields the node list of the 29 mask bytes that begin at payload byte 3. |
| SerialApi.InitDataNodesSpec | lib/zwave/zwave-serial-middleware.js:182-211 | That list holds exactly those ids 1 to 232 whose bit is set, each as { available: true }. |
| SerialApi.AvailableNodesSpec | lib/zwave/zwave-serial-middleware.js:205-207 | A list built from ids has exactly those ids as keys, each available. |
| SerialApi.InitDataFlagsSpec | lib/zwave/zwave-serial-middleware.js:177-181 | The four init-data flags are bits 0x01, 0x02, 0x04 and 0x08 of payload byte 1, and the Serial API version is byte 0. |
| SerialApi.GetVersionSpec | lib/zwave/zwave-serial-middleware.js:124-131 | The version text is the UTF-8 decoding of the first eleven payload bytes. It is the text whose UTF-8 form they are, when there is one. It has one character per byte, with the byte's value, when all are below 0x80, and never more characters than bytes. The library type is byte 12 with its table name. |
| SerialApi.GetVersionShortPayload | lib/zwave/zwave-serial-middleware.js:128-130 | A short payload decodes only the bytes present, into at most that many characters, and gives a library type with no value or name. |
| SerialApi.ControllerCapabilitiesSpec | lib/zwave/zwave-serial-middleware.js:162-171 | The five controller flags are bits 0x01 to 0x10 of payload byte 0, all false when the byte is missing. |
| SerialApi.SerialCapabilitiesIds | lib/zwave/zwave-serial-middleware.js:137-140 | Manufacturer, device type and device id read back as the big-endian byte pairs 2-3, 4-5 and 6-7. |
| SerialApi.ApplicationVersionSplits | lib/zwave/zwave-serial-middleware.js:137 | The application version "a.b" splits at its only "." back into payload bytes 0 and 1. |
| SerialApi.HomeIdSpec | lib/zwave/zwave-serial-middleware.js:154-160 | The home id is eight hex digits whose pairs read back as payload bytes 0-3, and the controller's own node id is byte 4. |
| SerialApi.HomeIdExample | lib/zwave/zwave-serial-middleware.js:154-160 | The payload c0 ff ee 01 01 gives home id "c0ffee01" and own node id 1. |
| SerialApi.ProtocolInfoSpec | lib/zwave/zwave-serial-middleware.js:214-226 | The protocol version is the low three bits plus one, so 1 to 8, and each capability flag is its bit of byte 0 or 1. |
| SerialApi.ListClasses | lib/zwave/zwave-serial-middleware.js:105-113 | The class loop over bytes 6 up to payload[2]+2 records each byte under the naming function's name. |
| SerialApi.SupportedClasses | lib/zwave/zwave-serial-middleware.js:103-114 | The node's class list is the corrected loop's list, where an unknown class is named "unknown". |
| SerialApi.NifClassesSpec | lib/zwave/zwave-serial-middleware.js:105-113 | The list holds exactly the bytes at positions 6 up to the end, each under its name. |
| SerialApi.NifClassesListed | lib/zwave/zwave-serial-middleware.js:105-113 | A node information frame's class list holds exactly the listed bytes, each under its table name or "unknown". |
| SerialApi.NifListedKeys | lib/zwave/zwave-serial-middleware.js:105-113 | The keys of the loop's class list are exactly the bytes at positions 6 up to the end, whatever the naming function. |
| SerialApi.ClassListNames | lib/zwave/zwave-serial-middleware.js:103-114 | The SupportedCmdClasses the node record stores, each listed byte under its ClassName, equals the map the loop builds. |
| SerialApi.NifAsWrittenThrows | lib/zwave/zwave-serial-middleware.js:105-113 | The loop as written throws exactly when some listed byte has no table entry. |
| SerialApi.NifAsWrittenAgreement | lib/zwave/zwave-serial-middleware.js:105-113 | When the loop as written does not throw, it gives the corrected loop's list. |
| SerialApi.NifAsWrittenThrowsOnUnknownClass | lib/zwave/zwave-serial-middleware.js:105-113 | For node 5 listing class 0x01, which the table lacks, the loop as written throws and the corrected loop records "unknown". |
| SerialApi.Invoke | lib/zwave/zwave-serial-middleware.js:49-259 | Returns the decoded context for each function class, or stops. A node information frame's class list is the set of listed bytes the corrected loop collected. |
| SerialApi.StopsOnlyNodeInfoAndSendData | lib/zwave/zwave-serial-middleware.js:53-56 | The layer stops exactly the RequestNodeInfo and SendData frames, and never throws. |
| SerialApi.OtherFramesUnchanged | lib/zwave/zwave-serial-middleware.js:49-258 | A frame of a function class the layer does not decode goes on unchanged. |
| SerialApi.SerialSpecCommand | lib/zwave/zwave-serial-middleware.js:58-64 | An ApplicationCommandHandler frame goes on with node id byte 1, command class byte 3, command byte 4 and the bytes from 5 as payload. |
| SerialApi.CommandFrameShape | lib/zwave/zwave-serial-middleware.js:58-64 | A node's ApplicationCommandHandler frame carries receive status, node id, command length, class, command and arguments between header and checksum, and its length byte counts the bytes after the SOF. |
| SerialApi.CommandFrameDecodes | lib/zwave/zwave-serial-middleware.js:58-64 | Framing and then decoding a node's command gives back its node id, command class, command and arguments. |
| SerialApi.SerialRequestFrame | lib/zwave/zwave-serial-middleware.js:276-281 | A request frame for n payload bytes is n+5 bytes long. |
| SerialApi.SendSerialRequest | lib/zwave/zwave-serial-middleware.js:262-292 | Rejects with "Missing function" exactly when the function class is 0. Otherwise the raw message is the request frame. The node id is stashed exactly for GetNodeProtocolInfo and RequestNodeInfo with a non-empty payload. |
| SerialApi.SerialRequestRoundTrip | lib/zwave/zwave-serial-middleware.js:276-281 | A request frame, once filled, reads back as a Request of the same function with the same payload and a valid checksum. |
| SerialApi.SerialRequestParses | lib/zwave/zwave-serial-middleware.js:276-281 | A request frame with 1 to 61 payload bytes is one the stream parser delivers whole. |
| SerialApi.SendSerialApiSetTimeouts | lib/zwave/zwave-serial-middleware.js:337-339 | The request is the SerialApiSetTimeouts frame with the two timeouts as payload, and it stashes no node id. |
| SerialApi.ScalarPayload | lib/zwave/zwave-serial-middleware.js:272-274 | A non-zero scalar payload becomes a one-byte list, and 0 (falsy) becomes an empty one. |
| SerialApi.SendRequestNodeInfo | lib/zwave/zwave-serial-middleware.js:308-320 | One RequestNodeInfo request per selected node, in order, each stashing that node's id. |
| SerialApi.GetNodeProtocolInfoSingleNodeThrows | lib/zwave/zwave-serial-middleware.js:294-306 | Given a single node, the function as written throws a ReferenceError at its caller, where the corrected one sends the request. The throw is synchronous: sendGetNodeProtocolInfo is a plain function, not a rejected promise as sendSerialRequest's "Missing function" is. |
| SerialApi.SendGetNodeProtocolInfo | lib/zwave/zwave-serial-middleware.js:294-306 | One GetNodeProtocolInfo request per selected node, each stashing that node's id. For a list of nodes it agrees with the code as written. |
| SerialApi.SendNodeSequence | lib/zwave/zwave-serial-middleware.js:322-335 | One node command per id, in order, with the given command class and command, and no Payload. |
| NodeSerialApi.Low8 | lib/zwave/zwave-node-middleware.js:171-180 | A count stored into a Buffer keeps its value modulo 256. |
| NodeSerialApi.NextCallbackId | lib/zwave/zwave-node-middleware.js:164 | The callback id rises by one up to 254 and then wraps to 0. |
| NodeSerialApi.SendDataMessage | lib/zwave/zwave-node-middleware.js:182 | The message node send builds carries a raw frame, is marked DoNotCache, keeps the node id, and sets no other field. |
| NodeSerialApi.SendDataMessageLayout | lib/zwave/zwave-node-middleware.js:167-180 | The frame has the arguments' length plus 11 bytes. It holds SOF, the length, Request and SendData, then the node, the command length, the class and the command, then the arguments, then the transmit options, the callback id and the checksum slot. |
| NodeSerialApi.ScalarPayloadWrapped | lib/zwave/zwave-node-middleware.js:166-167 | A non-zero number as Payload is wrapped into a one-element list, so the frame carries it as its one argument byte. |
| NodeSerialApi.ZeroPayloadDropped | lib/zwave/zwave-node-middleware.js:166-167 | The Payload 0 is falsy, so the frame carries no argument byte. |
| NodeSerialApi.ZwaveNodeSerialApi.constructor | lib/zwave/zwave-transport-server.js:69 | The callback id starts at 0. |
| NodeSerialApi.ZwaveNodeSerialApi.Send | lib/zwave/zwave-node-middleware.js:155-183 | A context without a truthy node id, or with a raw frame, passes on with the callback id unchanged. A node command lacking a truthy class or command throws. Otherwise the callback id advances and the SendData message is sent in its place. Its arguments are the Payload list as it is, a non-zero number as one byte, and nothing for 0 or no Payload. |
| NodeSerialApi.SendDataRoundTrip | lib/zwave/zwave-node-middleware.js:171-180 | A SendData frame reads back as a Request for SendData. Its payload is node, command length, class, command, arguments, transmit options and callback id, under a valid checksum. |
| NodeSerialApi.SendDataShape | lib/zwave/zwave-node-middleware.js:171-180 | A SendData frame is SOF, n+9, Request, SendData, then the payload, with the length byte counting the bytes after the SOF. |
| NodeSerialApi.SendDataWithinParserLimits | lib/zwave/zwave-node-middleware.js:171-180 | With at most 55 argument bytes, the length byte is within the parser's 4..64. |
| NodeSerialApi.AdvanceCallbackIdIsSum | lib/zwave/zwave-node-middleware.js:164 | After k frames, the callback id is (id + k) mod 255. |
| NodeSerialApi.CallbackIdsCycle | lib/zwave/zwave-node-middleware.js:164 | The callback id returns to its value after k frames exactly when 255 divides k. |
| HexFormat.JoinSpacedLayout | lib/zwave/zwave-node-middleware.js:136-138 | Joining two-character words with spaces puts word i at 3i, followed by a space for all but the last. |
| HexFormat.JoinHexRoundTrip | lib/zwave/zwave-node-middleware.js:136-138 | In the joined hex form, the digits at 3i read back as byte i. |
| NodeSerialApi.NodeInvoke | lib/zwave/zwave-node-middleware.js:109-153 | Definition of the node layer's invoke: only an ApplicationCommandHandler context changes, getting a fresh node under its node id that holds the report it carries. |
| NodeSerialApi.NodeInvokeFrame | lib/zwave/zwave-node-middleware.js:114-116 | Every other node key, the controller and the frame are left as they were. |
| NodeSerialApi.ManufacturerReportRoundTrip | lib/zwave/zwave-node-middleware.js:121-125 | A Report gives manufacturer, device type and device id as "0x" followed by four digits, reading back as the big-endian pairs. |
| NodeSerialApi.ManufacturerIdsDistinguish | lib/zwave/zwave-node-middleware.js:121-125 | Reports with different manufacturer bytes give different manufacturer ids. |
| NodeSerialApi.DeviceReportDecodes | lib/zwave/zwave-node-middleware.js:126-145 | Type 1 is stored as the serial number and any other type as the default id. The record keeps the format byte and the data bytes up to the data length. Its text is the data read as UTF-8 for format 0, and space-joined hex for any other format. |
| NodeSerialApi.DeviceDataTruncated | lib/zwave/zwave-node-middleware.js:133-134 | A data length past the end of the payload keeps only the bytes present. |
| MessageMiddleware.ZwaveMessageFlowControl.constructor | lib/zwave/zwave-message-middleware.js:78-102 | The queue starts empty and unblocked. |
| MessageMiddleware.ZwaveMessageFlowControl.QueueModified | lib/zwave/zwave-message-middleware.js:88-92 | When unblocked with requests waiting, it blocks and sends the first one down. |
| MessageMiddleware.ZwaveMessageFlowControl.Send | lib/zwave/zwave-message-middleware.js:104-114 | A bypassing message goes down at once. A held request joins the queue, and goes down at once only when nothing is outstanding. Requests go down in arrival order. |
| MessageMiddleware.ZwaveMessageFlowControl.Completed | lib/zwave/zwave-message-middleware.js:93-97 | When the outstanding request's answer arrives, the layer unblocks and sends the next waiting request. |
| MessageMiddleware.RequestFunctionClass | lib/zwave/zwave-message-middleware.js:222 | Definition of the class recorded for a request: the truthy SerialFunctionClass, else byte 3 of the raw message, else null. |
| MessageMiddleware.NodeMissingOnlyRekeys | lib/zwave/zwave-message-middleware.js:133-147 | Only Nodes changes, and only for a request naming a node whose response has node 0. |
| MessageMiddleware.NodeMissingMovesNodeZero | lib/zwave/zwave-message-middleware.js:140-147 | Node 0's fields move to the requested id with that NodeId, key 0 is left undefined, and every other key stays. |
| MessageMiddleware.NodeMissingIdempotent | lib/zwave/zwave-message-middleware.js:140-147 | Running the continuation twice does nothing more. |
| MessageMiddleware.MatchReadsStore | lib/zwave/zwave-message-middleware.js:187-191 | A frame can only match by reaching the store reads. |
| MessageMiddleware.NodeInfoResponseNeverMatches | lib/zwave/zwave-message-middleware.js:187-191 | A RequestNodeInfo frame never matches. |
| MessageMiddleware.UnsolicitedFramesMatch | lib/zwave/zwave-message-middleware.js:190-191 | ApplicationUpdate and ApplicationCommandHandler frames match whatever was requested. |
| MessageMiddleware.ZwaveMessageTransactionMatcher.constructor | lib/zwave/zwave-message-middleware.js:215-218 | There is no store and nothing is pending. |
| MessageMiddleware.ZwaveMessageTransactionMatcher.Invoke | lib/zwave/zwave-message-middleware.js:182-208 | Before any request, a frame that reads the store throws a TypeError. A non-matching frame throws, since its branch names an undefined `self`. A match hands the oldest pending request the context and records its class as the last one. A match with nothing pending records no class and rejects, since `{}` has no `resolve`. |
| MessageMiddleware.ZwaveMessageTransactionMatcher.Send | lib/zwave/zwave-message-middleware.js:210-224 | A bypassing message changes nothing. Any other request creates the store and records its function class as the last one. |
| MessageMiddleware.ZwaveMessageTransactionMatcher.Written | lib/zwave/zwave-message-middleware.js:226-234 | Once the write is done, the request joins the end of the pending queue under its function class. |
| ZwavePipeline.DecodeFrame | lib/zwave/index.js:61-66 | The framer, serial and node layers together give the specified decoding of an inbound frame. |
| ZwavePipeline.DecodedKeepsFrame | lib/zwave/zwave-serial-middleware.js:49-259 | The decoding never rejects a frame, and a context it lets on keeps the framer's header fields. |
| ZwavePipeline.Expected | lib/zwave/zwave-message-middleware.js:182-208 | The layers above transport flow control never drop a frame: only flow control does. |
| ZwavePipeline.DeliveryCases | lib/zwave/zwave-message-middleware.js:187-196 | Each delivery holds exactly under its condition. A RequestNodeInfo or SendData frame stops. Reading a missing store throws. A frame that does not match throws. A match with nothing pending rejects. A match with a request pending answers that request, after its node-missing step. |
| ZwavePipeline.ResponseAnswersPendingRequest | lib/zwave/zwave-message-middleware.js:187-196 | A Response of the pending request's function class answers that request, unless the serial layer stops frames of that class. |
| ZwavePipeline.ZwaveServer.constructor | lib/zwave/zwave-transport-server.js:69 | A new server has callback id 0, empty queues, nothing outstanding and nothing written. |
| ZwavePipeline.ZwaveServer.FrameAndWrite | lib/zwave/zwave-transport-middleware.js:86-96 | With a RawPayload, or else a byte-array Payload, the message gets its checksum and goes to the wire or to the transport queue. With neither, the framer throws before anything changes. Nothing written is taken back. |
| ZwavePipeline.ZwaveServer.Send | lib/zwave/zwave-message-middleware.js:104-114 | A request waits while another is outstanding, with nothing written. Otherwise it goes down, and the outcome is Sent exactly when it has a message to send down; otherwise it is the error of the layer that throws. A request that went down reaches the transport layer and joins the matcher's pending queue, and the callback id advances for a node command. The matcher then compares answers with that request's function class. |
| ZwavePipeline.ZwaveServer.Dispatch | lib/zwave/zwave-message-middleware.js:133-147 | The layers below message flow control hand the transport layer the request's down-message: its RawPayload or Payload, or for a node command the SendData frame. Without one, the request fails with node send's or the framer's error, or the port's for a number Payload, and nothing is written. Either way the matcher has recorded the request's function class. |
| ZwavePipeline.ZwaveServer.DispatchMessage | lib/zwave/zwave-message-middleware.js:210-234 | A request that is not a node command is framed and written, and joins the pending queue unless it bypasses. |
| ZwavePipeline.ZwaveServer.DispatchCommand | lib/zwave/zwave-node-middleware.js:164-182 | A node command advances the callback id, and the SendData message goes down through the whole pipeline. |
| ZwavePipeline.ZwaveServer.DispatchFailing | lib/zwave/zwave-node-middleware.js:160-162 | A node command without a truthy class or command throws in node send. A context with no message throws in the framer. A context whose only message is a number is given the port's TypeError as its outcome. Nothing is written and nothing is pending, but the matcher's store and class are set. |
| ZwavePipeline.ZwaveServer.Resend | lib/zwave/zwave-node-middleware.js:182 | The nested send of the SendData message passes the message layers untouched and reaches the transport layer. |
| ZwavePipeline.ZwaveServer.ReceiveFrame | lib/zwave/index.js:61-66 | A frame flow control forwards is acknowledged first: an SOF frame that does not repeat the last one. It then gets exactly the delivery Expected gives for the matcher's state. Any other frame is dropped, with the layers above unchanged. The engine halts exactly when the delivery Ends it. An answer goes to the outstanding request, after its node-missing step, and the next waiting request goes down. |
| ZwavePipeline.ZwaveServer.Acknowledge | lib/zwave/zwave-transport-middleware.js:180-200 | Transport flow control's drop, acknowledge and forward decisions, with its writes on the port. |
| ZwavePipeline.ZwaveServer.Deliver | lib/zwave/index.js:61-66 | The layers above transport flow control give exactly the Expected delivery. The engine halts exactly when that delivery Ends it. An answer goes only to the outstanding request. |
| ZwavePipeline.ZwaveServer.Match | lib/zwave/zwave-message-middleware.js:187-196 | The delivery is the matcher's verdict on the context. A throw, or a rejection for a match with nothing pending, halts the engine. A matched answer resolves the pending request with its node-missing result, and message flow control then moves on. |
| ZwavePipeline.ZwaveServer.Complete | lib/zwave/zwave-message-middleware.js:93-97 | After an answer, the first waiting request, if any, becomes the outstanding one. The engine halts exactly when that request's way down throws, since the throw rejects a promise nobody handles. |
| ZwavePipeline.ZwaveServer.ReceiveChunk | lib/zwave/zwave-transport-stream-parser.js:46-87 | The parser's frames for a chunk each go up the pipeline in turn, one delivery each. Every frame but the last is dropped. The last gets the delivery ReceiveFrame states, compared with the frame before it. A chunk without frames leaves the layers above alone. Nothing written is taken back. |
| ZwavePipeline.ZwaveServer.DeliverFrames | lib/zwave/zwave-transport-server.js:108-120 | The frames of one chunk go up in order. The one-byte frames before the last are dropped without touching the layers above, and the last gets ReceiveFrame's delivery. |
| ZwavePipeline.ZwaveServer.DropSingles | lib/zwave/zwave-transport-middleware.js:180-200 | Each one-byte frame is dropped: flow control writes nothing, and the parser, message flow, matcher and node layer are unchanged. |
| ZwavePipeline.SingleNotForwarded | lib/zwave/zwave-transport-middleware.js:191 | A one-byte ACK, NAK or CAN frame does not begin with SOF, so flow control never forwards it. |
| ZwavePipeline.CommandGoesDownAsSendData | lib/zwave/zwave-node-middleware.js:164-182 | A node command reaches the wire as a SendData frame with a valid checksum. It reads back with the node, class, command, arguments, options and the advanced callback id. |

## Left out

- Logging (`ZwaveLogger`, lib/zwave/zwave-transport-middleware.js:109-139) and every `console` call are not modelled. The logger is the first inbound layer and also sits on the way out. It also reads `.name` of the table entries for byte 3, and for ApplicationCommandHandler and SendData frames for the command class byte. So a frame with an unknown function code or command class throws a TypeError there. Inbound that throw comes before the ACK and ends the process. Outbound it comes inside message flow control's dispatch and wedges the queue. The model does not have these throws.
- Serial port I/O. lib/zwave/zwave-transport-server.js is not part of this model beyond three facts: its `CallbackId = 0`, the fresh context it makes per frame, and that it hands the frames of a chunk up in turn. The port is the `written` log.
- Promise and EventEmitter timing. Each `emit`, `.then` and `resolve` is an immediate step. The response that could arrive before its pending entry is pushed is not modelled.
- The `writing_blocked` and `writing_enabled` events (lib/zwave/zwave-transport-middleware.js:212-218) have no listener in the engine and are not modelled.
- The middleware composer (lib/iopa-slim/index.js and lib/iopa/appbuilder-slim.js): the layers are plain calls in the order of lib/zwave/index.js:61-66.
- The controller initialisation sequence in lib/zwave/index.js and its database middleware, the openzwave binding, lib/mqtt.js, server.js and config.js are not part of this model.
- The unreachable code after `return` in lib/zwave/zwave-message-middleware.js:149-161 is left out.
- `payload.Length` (capital L) is always undefined, so two branches never run and are left out:
  - the chip type branch at lib/zwave/zwave-serial-middleware.js:183-188;
  - the `SupportedCmdClasses` branch at lib/zwave/zwave-serial-middleware.js:249-254.
- `maxBaudRate` (lib/zwave/zwave-serial-middleware.js:227-230) is computed and never used.
- "Unknown ManufacturerSpecific report" (lib/zwave/zwave-node-middleware.js:146-147) only logs.
- `typeof context !== 'object'` in node send: the requests modelled are always objects.
- MessageMiddleware.NodeMissingReply: the source moves node 0 by mutating the response's Nodes object. The model returns the new response as a value, so aliasing of the node object is not captured.
- MessageMiddleware.Pending: the pending entry holds the request itself, standing for its `resolve`; `reject` is never called in the source.
- Name table entries are copied into node and context records as values. The source stores the shared table object and sets its `value` field.
- ZwavePipeline.ZwaveServer.DispatchFailing: a request that node send passes on whose Payload is a number, such as `{SerialFunctionClass: 0x15, Payload: 5}`, is modelled as a send that fails with the port's TypeError. Nothing is written, nothing is pending, and `halted` stays unset. The source differs in three ways:
  - Transport flow control queues the number, because `.length < 2` is false for it, and blocks if it was free. It returns a resolved promise.
  - So the caller's promise never rejects, and the matcher pushes a pending entry for the request.
  - The port's write throws inside a Promise executor whose promise flow control's `queue_modified` handler discards. That rejection is unhandled and, under the Node.js rule below, ends the process: at once if flow control was free, at the next SOF frame if it was blocked.
  No request of the engine has such a Payload.
- ZwavePipeline.ZwaveServer.Send and ZwavePipeline.ZwaveServer.Dispatch: their outcome for a number Payload of a request that node send passes on is the DispatchFailing approximation above, not the source's pending request and process end.
- ZwaveContext.OutboundMessage: such a number Payload counts as no message, which is what leads the dispatch to DispatchFailing.
- NodeSerialApi.Arguments: a Payload number is a byte. A larger number, which `new Buffer` cuts to its low eight bits, is not modelled. A Buffer as Payload is taken as a list here, although `Array.isArray` is false for it.
- ZwavePipeline.ZwaveServer.Dispatch: when node send or the framer throws inside message flow control, the source leaves `block` set and the queue wedged. The model keeps that state (the request stays outstanding) but models no recovery.
- ZwavePipeline.ZwaveServer.Complete: an unhandled promise rejection is taken to end the process, as Node.js does by default from version 15. Earlier versions only warn and go on. Once `halted` is set, the model accepts no further input.
- Utf8Text.Decode: a JavaScript string is modelled as its Unicode scalar values. A character beyond U+FFFF counts as one, where JavaScript's `length` counts two UTF-16 code units. Node's decoder is taken to follow the replacement rules of the UTF-8 decoder in the WHATWG Encoding Standard.
- MessageMiddleware.ZwaveMessageTransactionMatcher.Invoke: the unmatched-frame branch is modelled as written, where it throws for the undefined `self`. The dequeue it evidently intended is not modelled.
- HexFormat.ToHex: `toHex` of a value of more than four digits keeps the last four. The lemmas state the round trip only for 16-bit values, which is all the engine passes.
- The ZwavePlus role, node type and icon tables in protocol-constants.js are inert data and are left out.

## Findings

| source | as written | input that shows it | evidently intended | confidence | as-written member | corrected member |
|---|---|---|---|---|---|---|
| lib/zwave/zwave-serial-middleware.js:105-113 | `CommandClass.properties[data].name` is read for every listed class byte without checking the entry exists. The `\|\| "unknown"` fallback can never apply, and a missing entry throws a TypeError. | A node information frame payload [0x84, 5, 4, 0x04, 0x10, 0x01, 0x01] lists class 0x01, which has no table entry. | An unknown class is recorded as "unknown". | not executed | SerialApi.NifAsWrittenThrowsOnUnknownClass | SerialApi.NifClassesListed |
| lib/zwave/zwave-serial-middleware.js:304 | The single-node branch of sendGetNodeProtocolInfo passes `id`, which is not declared there, so it throws a ReferenceError. | sendGetNodeProtocolInfo(5) | Send the request for the node given, as sendRequestNodeInfo does at line 318. | not executed | SerialApi.GetNodeProtocolInfoSingleNodeThrows | SerialApi.SendGetNodeProtocolInfo |
