# Verification of the scoreboard bridge

This project models, in Dafny 4.11, the logic of a bridge from a Colorado swim scoreboard to MQTT, and of
the MQTT 1.6.9 client and broker it ships with, and proves properties of that logic. All files are checked
together with `dafny verify dfyconfig.toml`.

The parts, each a group of modules:

* **Wire layer of MQTT** - `Varint`, `Wire`, `Packets`, `Properties`, `PropertyTable`, `PropertyIO`, `Publish`,
  `Encoders`, `ConnectReader`, `SubscribeReader`, `AckReader`, `Utf8`, `Topics`, `Matcher`, `Bridge`. Readers and writers are methods over a packet with a cursor; each is
  proved to read or write what a pure parser or image function says, and the round trips, exact lengths and
  uniqueness of encodings are proved of those functions. What a client writes is read by the server's own
  decoder, and the layouts and tables of the standard are stated in numbers beside them.
* **Framing and queues** - `Framing`, `PacketReader`, `PacketWriter`, `EndToEnd`. The resumable reader is proved
  equal to a one-shot parser for every way of cutting the stream, with the exact condition under which that
  holds, and answers a protocol error exactly if that parser finds the stream malformed; the output queue is a
  linked list of nodes, and what the socket takes is always a prefix of what was queued. `EndToEnd` composes
  encoder, framing and decoder.
* **Client message flow** - `ClientSpec` is the state machine of the QoS 1 and 2 flow, `Client` the class whose
  handlers change lists, states and quotas in place and are proved equal to it, and `ClientRuns`,
  `ClientPhases`, `ClientConservation`, `ClientQos2`, `ClientAnswers` and `ClientReconnect` prove what holds
  over all runs, for any results of the sends.
* **Broker message store** - `BrokerSpec` and `BrokerFlow` say what each operation makes of a client's lists,
  `BrokerMachine` puts them together to a state machine, `BrokerBooks` says what it means for reference counts
  and totals to be right, `BrokerStates` what is kept of the states of messages, `BrokerWindow` and `BrokerRules` prove flow control,
  limits, the course of a delivery and what is handed on once, and `Broker` is the database
  class whose loops work in place and which is proved to run like the machine.
* **Scoreboard** - `Decoder` for the byte stream, `ScoreboardFrames` for frames as they are sent, `Scoreboard` for
  the event filters as values, `ScoreboardRules` for when what is published, `Board` and `Receiver` for the
  globals that the source updates byte by byte.

Sends and socket reads are oracles: a plan or a function says how each of them ends. Published MQTT messages
are recorded as a trace. Section numbers are those of MQTT 5.0.

Where something fails, the exact condition is proved instead: the framing with a zero command byte
(`Framing.ChunkIndependence`), the size of a PUBLISH with 2^28 bytes of properties (`Publish.PublishSizing`),
property sections that overrun (`Properties.ListExactConsumption`), the bridge round trip without a remote
prefix (`Bridge.BridgeRoundTrip`), the send window after a CONNACK with pending messages, a stray
acknowledgement or a failing send (`ClientRuns.StepKeepsWindowIff`), the QoS 2 phase of messages beyond the
inflight maximum (`ClientPhases.ResetKeepsPhaseIff`), the broker's counters for a maximum QoS of 0
(`BrokerSpec.AddMovesDriftIff`), the broker's send window over a reconnect (`BrokerWindow.ReconnectKeepsWindowIff`,
`BrokerWindow.RequeueBounded`), an empty user name or password in CONNECT (`ConnectReader.CredentialsReadIff`),
a reason string among the properties of a will (`PropertyTable.CheckedAsListed`), digits that read 10
(`ScoreboardRules.SameDigitsIff`), and a repeated lane frame (`Scoreboard.RepeatedFrameIff`).

Where the source's comments and its code disagree, the model follows the code: the start/stop filter is said
to look at the clock every fifth time and does so every sixth, lane messages are said to wait for 10 seconds
and wait for 2, and the reset of the broker's outgoing direction lowers the receive quota. An end of file is
reported as a lost connection in the header of a packet, and as another error in its body.

## Model

| member | source | states |
|---|---|---|
| Topics.JoinLevels | mosquitto-1.6.9/lib/mosquitto.c:544-598 | Joining the levels of a topic with `/` gives the string back. |
| Topics.LevelsJoin | mosquitto-1.6.9/lib/mosquitto.c:544-598 | Any non-empty list of levels without `/` is what its join splits into: the separators split a string in one way only. |
| Topics.GoodTailIsValidLevels | mosquitto-1.6.9/lib/util_topic.c:108-141 | The neighbour tests of the filter check accept exactly the filters whose levels are valid: `+` alone in its level, `#` alone in the last. |
| Topics.SlashCountIsLevels | mosquitto-1.6.9/lib/util_topic.c:122-138 | The hierarchy counter is the number of levels minus one. |
| Topics.PubTopicCheck | mosquitto-1.6.9/lib/util_topic.c:49-73 | Succeeds exactly for wildcard-free topics within the length and hierarchy limits. |
| Topics.SubTopicCheck | mosquitto-1.6.9/lib/util_topic.c:108-141 | Succeeds exactly for valid filters within the limits, with the remembered previous character. |
| Topics.SubTopicCheck2 | mosquitto-1.6.9/lib/util_topic.c:143-175 | The same decision by index and length. |
| Matcher.TopicMatchesSub | mosquitto-1.6.9/lib/util_topic.c:183-312 | For every non-empty valid filter and wildcard-free topic the matcher succeeds and its result is the level-by-level match of section 4.7 with the `$` rule; an empty string is refused; for any filter at all, a topic that holds a wildcard is never matched, and the only error code comes with no match. |
| Matcher.WalkBoth | mosquitto-1.6.9/lib/util_topic.c:203-312 | The character walk decides the match of the split levels, and answers a match only after it has seen the whole topic free of wildcards. |
| Matcher.WalkPlus | mosquitto-1.6.9/lib/util_topic.c:210-230 | Skipping one topic level at a `+` keeps the question whether the rests match. |
| Matcher.WalkParent | mosquitto-1.6.9/lib/util_topic.c:275-282 | A filter that ends in `/#` matches its parent level. |
| Matcher.WalkMismatch | mosquitto-1.6.9/lib/util_topic.c:249-271 | Where the characters differ, the whole filter matches exactly in the one remaining case `+/#` at the end of the topic. |
| Matcher.ScanFilter | mosquitto-1.6.9/lib/util_topic.c:261-268 | After a mismatch the rest of the filter is refused exactly if a `#` stands before its last character. |
| Matcher.Tokenise | mosquitto-1.6.9/lib/mosquitto.c:544-598 | The tokeniser fills one slot for each level, an empty level as a null pointer. |
| Matcher.TokensRoundTrip | mosquitto-1.6.9/lib/mosquitto.c:544-598 | Reading the slots back and joining them gives the string. |
| Bridge.MapOutgoing | mosquitto-1.6.9/lib/send_publish.c:72-118 | The remapping loop yields what the first applying entry says, for every list of entries with valid filters, and always a C string; an empty topic fails with an enabled entry, and without one nothing changes. |
| Bridge.MapIncoming | mosquitto-1.6.9/src/handle_publish.c:194-239 | The same for the incoming direction. |
| Bridge.PrefixesExchanged | mosquitto-1.6.9/lib/send_publish.c:72-118 | An entry for the direction or for both exchanges its local prefix for its remote one on the way out, and the other way round on the way in; a topic it does not match stays. |
| Bridge.OtherDirectionMapsNothing | mosquitto-1.6.9/src/handle_publish.c:193-240 | Entries for the other direction only map nothing. |
| Bridge.Filter | mosquitto-1.6.9/src/conf.c:2049-2103 | The filter of an entry is prefix and pattern, and never empty. |
| Bridge.CommonPrefix | mosquitto-1.6.9/lib/util_topic.c:183-312 | A common wildcard-free prefix of filter and topic does not take part in the match. |
| Bridge.PrefixSwap | mosquitto-1.6.9/src/conf.c:2055-2103 | Exchanging the common prefix for another keeps the match. |
| Bridge.ImageMatches | mosquitto-1.6.9/lib/send_publish.c:72-118 | The image of a matching topic is matched on the way back, exactly unless the remote prefix is empty and what is left of the topic is empty or disagrees with the pattern about `$`. |
| Bridge.PrefixBeyondTopic | mosquitto-1.6.9/lib/util_topic.c:275-282 | A filter whose wildcard-free prefix is not a prefix of the topic matches it only as `topic/#`. |
| Bridge.ImageIsTopic | mosquitto-1.6.9/lib/send_publish.c:72-118 | The image of a topic name is a C string without wildcards, so it can be given to the way in. |
| Bridge.BridgeRoundTrip | mosquitto-1.6.9/src/handle_publish.c:194-239 | For one both-direction entry and any topic name it matches, outgoing then incoming mapping is the identity if and only if the match is not lost, or the topic is the unstripped parent of the local prefix, begins with `$`, and there is no remote prefix; the image is again a C string without wildcards. |
| Bridge.SendAndEcho | mosquitto-1.6.9/src/handle_publish.c:194-239 | Both loops, one after the other, on the same topic: they succeed exactly if the image is not empty or nothing is enabled, and with one entry the topic comes back exactly under that condition. |
| Bridge.LostMatchExample | mosquitto-1.6.9/lib/util_topic.c:199-203 | With pattern `#`, local prefix `a/` and no remote prefix the topic `a/$x` goes out as `$x` and does not come back. |
| Bridge.BridgeRoundTripBothPrefixes | mosquitto-1.6.9/src/handle_publish.c:194-239 | With both prefixes present the round trip is the identity on every such topic. |
| Bridge.ListRoundTrip | mosquitto-1.6.9/lib/send_publish.c:72-118 | With several entries, of which the deciding one does not lose the match: it or an earlier one decides on the way back, the round trip is the identity exactly if that one undoes the mapping, and it does if no earlier entry applies to the image. |
| Bridge.SlashPrefixValid | mosquitto-1.6.9/src/conf.c:2055-2103 | A wildcard-free prefix that ends in `/` keeps every valid pattern valid. |
| Utf8.ValidateUtf8 | mosquitto-1.6.9/lib/utf8_mosq.c:22-108 | On a buffer with a NUL at index `len` nothing behind that index is read, and the answer is success exactly for accepted strings; a null buffer or a bad length is refused. |
| Utf8.AcceptedIsEncoded | mosquitto-1.6.9/lib/utf8_mosq.c:33-106 | The accepted byte strings are exactly the concatenations of encodings of allowed code points: no control character, surrogate or non-character (RFC 3629 section 3, MQTT 5.0 section 1.5.4). |
| Utf8.FirstOfEncoding | mosquitto-1.6.9/lib/utf8_mosq.c:33-106 | An encoding is read back as its code point, whatever follows, and it takes its own length. |
| Utf8.EncodingsAccepted | mosquitto-1.6.9/lib/utf8_mosq.c:33-106 | Every encoded text is accepted. |
| Utf8.ShortestForm | mosquitto-1.6.9/lib/utf8_mosq.c:82-93 | What is accepted at the start of a string is the shortest encoding of the code point. |
| Varint.DecodeEncode | mosquitto-1.6.9/lib/packet_datatypes.c:202-255 | Every value below 2^28 is read back from its encoding whatever follows; larger values fail. |
| Varint.EncodeDecode | mosquitto-1.6.9/lib/packet_datatypes.c:202-233 | Every byte string the reader accepts begins with the one encoding of the value read. |
| Varint.BytesIsLength | mosquitto-1.6.9/lib/packet_datatypes.c:258-271 | `packet__varint_bytes` is the length of the encoding if and only if the value is below 2^35; four bytes are enough exactly below 2^28. |
| Wire.Uint16RoundTrip | mosquitto-1.6.9/lib/packet_datatypes.c:149-171 | A 16-bit integer is read back whatever follows. |
| Wire.Uint32RoundTrip | mosquitto-1.6.9/lib/packet_datatypes.c:174-199 | A 32-bit integer is read back whatever follows. |
| Wire.BlockRoundTrip | mosquitto-1.6.9/lib/packet_datatypes.c:91-119 | A length-prefixed block is read back whatever follows. |
| Wire.BlockUnique | mosquitto-1.6.9/lib/packet_datatypes.c:91-119 | A block that is accepted is the one that would be written for what was read. |
| Wire.BigEndian | mosquitto-1.6.9/lib/packet_datatypes.c:149-199 | The most significant byte of a 16-bit and of a 32-bit integer comes first. |
| Wire.LengthFirst | mosquitto-1.6.9/lib/packet_datatypes.c:141-146 | A block is two bytes of length, most significant first, and then the data. |
| Varint.EncodedWorth | mosquitto-1.6.9/lib/packet_datatypes.c:238-262 | The encoding is worth the value by section 1.5.5, every byte but the last announces another one, and the last is no superfluous zero. |
| Packets.InPacket.ReadByte | mosquitto-1.6.9/lib/packet_datatypes.c:47-56 | Reads one byte at the cursor exactly as the parser of the remaining bytes says, or fails as it says. |
| Packets.InPacket.ReadBytes | mosquitto-1.6.9/lib/packet_datatypes.c:69-78 | Reads a number of bytes at the cursor exactly as the parser of the remaining bytes says, or fails as it says. |
| Packets.InPacket.ReadUint16 | mosquitto-1.6.9/lib/packet_datatypes.c:149-164 | Reads a 16-bit integer at the cursor exactly as the parser of the remaining bytes says, or fails as it says. |
| Packets.InPacket.ReadUint32 | mosquitto-1.6.9/lib/packet_datatypes.c:174-190 | Reads a 32-bit integer at the cursor exactly as the parser of the remaining bytes says, or fails as it says. |
| Packets.InPacket.ReadVarint | mosquitto-1.6.9/lib/packet_datatypes.c:202-233 | Reads a variable byte integer, overlong forms refused at the cursor exactly as the parser of the remaining bytes says, or fails as it says. |
| Packets.InPacket.ReadBinary | mosquitto-1.6.9/lib/packet_datatypes.c:91-119 | Reads a length-prefixed block at the cursor exactly as the parser of the remaining bytes says, or fails as it says. |
| Packets.InPacket.ReadString | mosquitto-1.6.9/lib/packet_datatypes.c:122-138 | Reads a UTF-8 string at the cursor exactly as the parser of the remaining bytes says, or fails as it says. |
| Packets.OutPacket.WriteByte | mosquitto-1.6.9/lib/packet_datatypes.c:59-66 | Appends the image of one byte to what is written; the room shrinks by as much. |
| Packets.OutPacket.WriteBytes | mosquitto-1.6.9/lib/packet_datatypes.c:81-88 | Appends the image of bytes to what is written; the room shrinks by as much. |
| Packets.OutPacket.WriteUint16 | mosquitto-1.6.9/lib/packet_datatypes.c:167-171 | Appends the image of a 16-bit integer to what is written; the room shrinks by as much. |
| Packets.OutPacket.WriteUint32 | mosquitto-1.6.9/lib/packet_datatypes.c:193-199 | Appends the image of a 32-bit integer to what is written; the room shrinks by as much. |
| Packets.OutPacket.WriteString | mosquitto-1.6.9/lib/packet_datatypes.c:141-146 | Appends the image of a string with its length to what is written; the room shrinks by as much. |
| Packets.OutPacket.WriteVarint | mosquitto-1.6.9/lib/packet_datatypes.c:235-255 | Appends the image of a variable byte integer, refused after its bytes from 2^28 on to what is written; the room shrinks by as much. |
| Packets.Alloc | mosquitto-1.6.9/lib/packet_mosq.c:48-85 | The fixed header is the command byte and the encoded remaining length; a length of 2^28 or more is refused. |
| Properties.LengthIsExact | mosquitto-1.6.9/lib/property_mosq.c:260-327 | The precomputed length is the number of bytes written exactly for the properties whose writing succeeds. |
| Properties.LengthAllIsExact | mosquitto-1.6.9/lib/property_mosq.c:330-341 | The same for lists. |
| Properties.PropertyRoundTrip | mosquitto-1.6.9/lib/property_mosq.c:34-145 | The reader undoes the writer whatever follows. |
| Properties.PropertyUnique | mosquitto-1.6.9/lib/property_mosq.c:34-145 | What is accepted is the image of the property read; the counter drops by the bytes taken, at least two. |
| Properties.ListRoundTrip | mosquitto-1.6.9/lib/property_mosq.c:148-190 | Reading back a written list gives the same list in order and uses up the length. |
| Properties.ListLedger | mosquitto-1.6.9/lib/property_mosq.c:161-176 | On any input the bytes taken are the declared length less what is left of the counter, and their content is the image of the list. |
| Properties.ListExactConsumption | mosquitto-1.6.9/lib/property_mosq.c:161-176 | A list takes exactly its declared length if and only if it can be read from the declared section alone. |
| Properties.OverrunExists | mosquitto-1.6.9/lib/property_mosq.c:161-176 | A concrete section of which more is taken than was declared. |
| Properties.CheckAllIsAllowed | mosquitto-1.6.9/lib/property_mosq.c:844-895 | The list check accepts exactly the lists in which every property is allowed for the command, in range and not repeated. |
| Properties.SectionRoundTrip | mosquitto-1.6.9/lib/property_mosq.c:148-190 | A property section is read back whole for every list that its command allows. |
| Properties.SectionUnique | mosquitto-1.6.9/lib/property_mosq.c:148-190 | What is accepted is a length and the image of an allowed list, and with the right length the section that would be written. |
| Properties.ImagesAppend | mosquitto-1.6.9/lib/property_mosq.c:410-428 | Lists written one after the other are the concatenated list. |
| PropertyTable.CheckedAsListed | mosquitto-1.6.9/lib/property_mosq.c:431-522 | For each packet the identifiers that pass are exactly those that section 2.2.2.2 lists, in numbers, with one exception: a reason string passes in a will. |
| PropertyTable.AcceptedAsListed | mosquitto-1.6.9/lib/property_mosq.c:844-895 | A list is accepted exactly if each property is in bounds and listed for its packet, in numbers, and none but the user property is there twice. |
| PropertyTable.WrittenForm | mosquitto-1.6.9/lib/property_mosq.c:344-407 | The form of each property on the wire by its identifier: width, byte order, length in front, name before value. |
| PropertyIO.ReadProperty | mosquitto-1.6.9/lib/property_mosq.c:34-145 | Reads one property at the cursor as the parser says and lowers the counter by the bytes taken. |
| PropertyIO.ReadAll | mosquitto-1.6.9/lib/property_mosq.c:148-190 | Reads and checks a section as the parser says, with the ledger as loop invariant. |
| PropertyIO.CheckAllMethod | mosquitto-1.6.9/lib/property_mosq.c:844-895 | The nested walk answers as the list check says. |
| PropertyIO.GetLengthAll | mosquitto-1.6.9/lib/property_mosq.c:330-341 | Sums the lengths of a list. |
| PropertyIO.WriteProperty | mosquitto-1.6.9/lib/property_mosq.c:344-407 | Appends the image of a property; fails exactly for those that cannot be written. |
| PropertyIO.WriteAll | mosquitto-1.6.9/lib/property_mosq.c:410-428 | Writes any list, with or without the length in front: up to and including the first property that cannot be written, with its code; a length of 2^28 or more stops it before the first. |
| PropertyIO.WholeListIff | mosquitto-1.6.9/lib/property_mosq.c:418-426 | Writing a list succeeds if and only if every property can be written, and then it is the image of the list. |
| Publish.PublishSizing | mosquitto-1.6.9/lib/send_publish.c:141-183 | The remaining length computed for a PUBLISH is the number of bytes written if and only if its properties stay below 2^28 bytes. |
| Publish.CheckOversize | mosquitto-1.6.9/lib/packet_mosq.c:187-199 | Refuses exactly the lengths above the maximum, a maximum of 0 meaning none. |
| Publish.RealPublish | mosquitto-1.6.9/lib/send_publish.c:131-215 | The packet built is command byte, remaining length and body of the message with the three property lists concatenated; the first byte is type 3 with dup in bit 3, the QoS in bits 2 and 1 and retain in bit 0; the cursor ends at the end and no write lacks room. |
| Publish.PublishRoundTrip | mosquitto-1.6.9/lib/handle_publish.c:55-111 | Decoding the encoding recovers dup, QoS, retain, topic, identifier, properties and payload, for v3.1.1 and v5. |
| Publish.DecodePublish | mosquitto-1.6.9/lib/handle_publish.c:55-111 | The decoder answers for any body as the message parser says, error by error, and takes dup, QoS and retain from bits 3, 2-1 and 0 of the first byte. |
| Publish.FirstByte | mosquitto-1.6.9/lib/send_publish.c:183-183 | Type 3 in the upper half of the command byte, and the places of dup, QoS and retain. |
| Publish.WrittenLaid | mosquitto-1.6.9/lib/send_publish.c:190-213 | Byte by byte: the length of the topic, the topic, the identifier if there is one, the properties of v5, and the payload at the very end. |
| Publish.AcceptedLaid | mosquitto-1.6.9/lib/handle_publish.c:55-111 | Whatever the decoder accepts is in that layout, with a non-empty UTF-8 topic and an identifier exactly if the QoS is above 0. |
| Publish.SentParts | mosquitto-1.6.9/lib/send_publish.c:131-215 | The properties of the message, those of the stored message and last the expiry interval; an identifier only with a QoS above 0. |
| Encoders.CommandWithMid | mosquitto-1.6.9/lib/send_mosq.c:119-165 | PUBACK, PUBREC, PUBREL and PUBCOMP are complete packets of exactly the precomputed length, or too long and refused. |
| AckReader.SendPuback | mosquitto-1.6.9/lib/send_mosq.c:68-78 | PUBACK byte by byte: 0x40, the length, the identifier and with v5 a reason other than 0. |
| AckReader.SendPubrec | mosquitto-1.6.9/lib/send_mosq.c:93-105 | PUBREC byte by byte, with 0x50. |
| AckReader.SendPubrel | mosquitto-1.6.9/lib/send_mosq.c:107-116 | PUBREL byte by byte, with 0x62. |
| AckReader.SendPubcomp | mosquitto-1.6.9/lib/send_mosq.c:80-90 | PUBCOMP byte by byte, with 0x70. |
| AckReader.DecodeAck | mosquitto-1.6.9/lib/handle_pubrel.c:57-74 | The decoding of the acknowledgements, error by error. |
| AckReader.AckRoundTrip | mosquitto-1.6.9/lib/handle_pubackcomp.c:63-76 | What was sent is read back: identifier, reason code and properties, as far as the protocol has them. |
| Encoders.Subscribe | mosquitto-1.6.9/lib/send_subscribe.c:36-95 | SUBSCRIBE is a complete packet with first byte 0x82 of exactly the precomputed length, or too long and refused. |
| SubscribeReader.DecodeSubscribe | mosquitto-1.6.9/src/handle_subscribe.c:55-132 | The decoding of SUBSCRIBE up to the end of its loop, error by error; an empty filter is passed over, its options byte is not. |
| SubscribeReader.SubscribeRoundTrip | mosquitto-1.6.9/src/handle_subscribe.c:55-132 | What the client writes the server reads: identifier, subscription identifier, filters in order, QoS and options. |
| Encoders.Connect | mosquitto-1.6.9/lib/send_connect.c:34-204 | CONNECT is a complete packet with first byte 0x10 of exactly the precomputed length, or is too long or refused in the cases that the source refuses. The server reads its body back (`ConnectReader.ConnectRoundTrip`). |
| ConnectReader.DecodeConnect | mosquitto-1.6.9/src/handle_connect.c:402-637 | The server decodes CONNECT in the order of section 3.1.3, steered by the flag bits, error by error: whatever the body is, as the parser says. |
| ConnectReader.ConnectRoundTrip | mosquitto-1.6.9/src/handle_connect.c:402-637 | From what the client writes the server recovers protocol, clean start, keep alive, properties, client id, will, user name and password, for all settings that it accepts. |
| ConnectReader.CredentialsReadIff | mosquitto-1.6.9/src/handle_connect.c:594-631 | User name and password come back as they were set exactly if they are not the empty string, which the server takes for none. |
| ConnectReader.FlagsRoundTrip | mosquitto-1.6.9/lib/send_connect.c:152-162 | The reader takes the flag byte apart into what the writer put together: bits 7, 6, 5, 4-3, 2 and 1. |
| ConnectReader.FrontBytes | mosquitto-1.6.9/lib/send_connect.c:140-163 | Name, level, flags and keep alive, byte by byte. |
| ConnectReader.ReceiveMaximumAnnounced | mosquitto-1.6.9/lib/send_connect.c:68-76 | A v5 client always announces a receive maximum: the caller's, or its own behind what the caller set. |
| ConnectReader.ProcessWillMethod | mosquitto-1.6.9/src/property_broker.c:58-111 | The loop over the properties of a will keeps what belongs to the message, and takes delay and expiry out. |
| ConnectReader.ProcessedWill | mosquitto-1.6.9/src/property_broker.c:58-111 | What is kept, the delay and the expiry of an allowed list; only a reason string, which the table of the checks lets pass in a will, stops it. |
| Encoders.SectionLength | mosquitto-1.6.9/lib/property_mosq.c:330-341 | A property section is as long as the sum that the encoders compute. |
| EndToEnd.FirstIsPacket | mosquitto-1.6.9/lib/send_publish.c:185-215 | The bytes of a message at the start of a stream are its first packet. |
| EndToEnd.StreamOfMessages | mosquitto-1.6.9/lib/packet_mosq.c:350-498 | The stream of any number of messages parses to their packets, in order. |
| EndToEnd.MessagesArrive | mosquitto-1.6.9/lib/packet_mosq.c:350-498 | However the bytes of any number of messages are cut into reads, one packet is dispatched for each, its type is 3 (PUBLISH), and decoding gives the message back. |
| Framing.FeedAllIsParseStream | mosquitto-1.6.9/lib/packet_mosq.c:350-498 | Reading byte by byte dispatches the packets of the one-shot parser and reaches the same framing error. |
| Framing.LengthFieldIs | mosquitto-1.6.9/lib/packet_mosq.c:380-425 | Read off the bytes: the length is malformed exactly if four bytes announce another one that is there, unfinished exactly if all of at most four do, and otherwise it is what the bytes up to the first that does not are worth. |
| Framing.ZeroCommandSplits | mosquitto-1.6.9/lib/packet_mosq.c:350-379 | A cut behind a zero command byte changes what is dispatched. |
| Framing.ZeroInsideIff | mosquitto-1.6.9/lib/packet_mosq.c:350-379 | The reader holds a zero command byte within a stream exactly if a packet of the stream begins with one. |
| Framing.ChunkIndependence | mosquitto-1.6.9/lib/packet_mosq.c:350-498 | A stream is read alike however it is cut if and only if no packet begins with a zero command byte. |
| Framing.CutsDispatchTheStream | mosquitto-1.6.9/lib/packet_mosq.c:350-498 | Any two ways of cutting such a stream dispatch the packets of the one-shot parser and agree on the framing error. |
| PacketReader.Reader.PacketRead | mosquitto-1.6.9/lib/packet_mosq.c:314-498 | One call reads on until a packet is complete (and dispatched, with its return code), the length is too long (a protocol error), or a read gives nothing, whose code it answers; fields and dispatched packets are those of the byte-by-byte reading of the bytes taken. |
| PacketReader.Reader.ReadLength | mosquitto-1.6.9/lib/packet_mosq.c:389-445 | The second phase stops at any byte, with the code of the read that gave nothing, and resumes; more than four length bytes are a protocol error. |
| PacketReader.Reader.ReadBody | mosquitto-1.6.9/lib/packet_mosq.c:446-498 | The last phase stops at any byte and resumes, and dispatches exactly once, if no read stopped it; here an end of file answers like any other error. |
| PacketReader.Reader.Cleanup | mosquitto-1.6.9/lib/packet_mosq.c:87-100 | The reader starts afresh. |
| PacketReader.Reader.ReadLoop | mosquitto-1.6.9/lib/packet_mosq.c:350-498 | Any number of calls dispatch what a run over their chunks says, and end with a protocol error if and only if the framing of the run is broken. |
| PacketReader.FreshReaderRun | mosquitto-1.6.9/lib/packet_mosq.c:350-498 | After any number of calls a fresh reader has dispatched the packets of the one-shot parser on the bytes taken, and has reported a protocol error if and only if the parser finds them malformed, if no packet begins with a zero byte. |
| PacketWriter.OutQueue.PacketWrite | mosquitto-1.6.9/lib/packet_mosq.c:202-310 | The bytes the socket takes are the next ones of the queued stream. If every write takes something, all of it is written, up to a DISCONNECT packet of the client, which closes the socket; else the answer is the code of the write that took nothing. The packets still waiting are the old ones without those written. |
| PacketWriter.OutQueue.WriteCurrent | mosquitto-1.6.9/lib/packet_mosq.c:235-262 | The socket takes exactly the bytes that leave the current packet; the packet is done if every write took something, else the answer is the code of the one that did not. |
| PacketWriter.OutQueue.Progress | mosquitto-1.6.9/lib/packet_mosq.c:236-240 | A partial write moves exactly the bytes taken from the unsent to the sent ones. |
| PacketWriter.OutQueue.Advance | mosquitto-1.6.9/lib/packet_mosq.c:290-302 | The next packet of the list becomes current. |
| PacketWriter.OutQueue.Append | mosquitto-1.6.9/lib/packet_mosq.c:142-152 | Appends at the last pointer; the list stays linked. |
| PacketWriter.OutQueue.PacketQueue | mosquitto-1.6.9/lib/packet_mosq.c:134-184 | The queued stream grows by the packet behind the others, and is written at once or not, as above. |
| PacketWriter.OutQueue.CleanupAll | mosquitto-1.6.9/lib/packet_mosq.c:103-131 | Nothing stays queued. |
| PacketWriter.Perform | mosquitto-1.6.9/lib/packet_mosq.c:134-310 | Any operation on the queue: the stream grows by the packet queued, and the socket takes the next bytes of it. |
| PacketWriter.OneConnection | mosquitto-1.6.9/lib/packet_mosq.c:134-310 | Over any sequence of queueings, writes and changes of the pending state, after each operation the bytes that the socket took are a prefix of the packets queued so far, in order, and only grow. |
| PacketWriter.RecordMore | mosquitto-1.6.9/lib/packet_mosq.c:134-310 | The record of what was taken after each operation stays one of growing prefixes. |
| Client.Mosquitto.MidGenerate | mosquitto-1.6.9/lib/util_mosq.c:132-151 | The next identifier, skipping 0. The whole new state is that of the state machine. |
| Client.Mosquitto.ReleaseToInflight | mosquitto-1.6.9/lib/messages_mosq.c:188-216 | Publishes the unsent messages in order while there is quota, a failing send ending the walk. The whole new state is that of the state machine. |
| Client.Mosquitto.MessageRemoveOut | mosquitto-1.6.9/lib/messages_mosq.c:219-248 | Removes the first outgoing message with the identifier, unless its QoS differs. The whole new state is that of the state machine. |
| Client.Mosquitto.MessageRemoveIn | mosquitto-1.6.9/lib/messages_mosq.c:249-271 | Removes the first incoming message with the identifier. The whole new state is that of the state machine. |
| Client.Mosquitto.MessageOutUpdate | mosquitto-1.6.9/lib/messages_mosq.c:319-339 | Sets the state of the first message with the identifier, unless its QoS differs. The whole new state is that of the state machine. |
| Client.Mosquitto.MessageReconnectReset | mosquitto-1.6.9/lib/messages_mosq.c:138-185 | Resets both lists, queue lengths and quotas for a new connection. The whole new state is that of the state machine. |
| Client.Mosquitto.MessageRetryCheck | mosquitto-1.6.9/lib/messages_mosq.c:274-310 | Resends what each outgoing message is waiting for, in order. The whole new state is that of the state machine. |
| Client.Mosquitto.PublishMessage | mosquitto-1.6.9/lib/actions.c:105-157 | Queues a message under a new identifier and releases what the quota allows. The whole new state is that of the state machine. |
| Client.Mosquitto.HandlePubackcomp | mosquitto-1.6.9/lib/handle_pubackcomp.c:59-117 | Raises the quota, removes the acknowledged message and releases more. The whole new state is that of the state machine. |
| Client.Mosquitto.HandlePubrec | mosquitto-1.6.9/lib/handle_pubrec.c:82-111 | Success moves the message past its PUBREC and sends PUBREL; failure removes it. The whole new state is that of the state machine. |
| Client.Mosquitto.HandlePublish | mosquitto-1.6.9/lib/handle_publish.c:113-168 | Quota and the incoming list for each QoS; with QoS 1 exactly a PUBACK is sent, with QoS 2 exactly a PUBREC, for the same identifier. The whole new state is that of the state machine. |
| Client.Mosquitto.HandlePubrel | mosquitto-1.6.9/lib/handle_pubrel.c:78-128 | Sends exactly a PUBCOMP, removes the message and delivers it, or drops it if the PUBCOMP failed. The whole new state is that of the state machine. |
| Client.Mosquitto.HandleConnack | mosquitto-1.6.9/lib/handle_connack.c:80-128 | Sets maximum and quota, and resends. The whole new state is that of the state machine. |
| Client.Mosquitto.PublishAtOnce | mosquitto-1.6.9/lib/actions.c:105-133 | A QoS 0 message takes an identifier and is sent at once. The whole new state is that of the state machine. |
| Client.Mosquitto.DisconnectClient | mosquitto-1.6.9/lib/connect.c:254-260 | The client is no longer active, and DISCONNECT is sent. The whole new state is that of the state machine. |
| Client.Mosquitto.ReconnectSocket | mosquitto-1.6.9/lib/connect.c:156-225 | Resets the lists and reports whether the socket opened and took the CONNECT. The whole new state is that of the state machine. |
| Client.HandleAll | mosquitto-1.6.9/lib/messages_mosq.c:120-339 | Handling any sequence of events in place is the run of the state machine. |
| ClientRuns.ReleaseSum | mosquitto-1.6.9/lib/messages_mosq.c:188-216 | Whatever the sends do, releasing keeps a prefix in flight and the sum of flight and quota, but for one more if a send fails: that message is marked and takes no quota. If none fails, one waits only without quota. |
| ClientRuns.ReleaseKeepsWindowIff | mosquitto-1.6.9/lib/messages_mosq.c:188-216 | Releasing establishes the window if and only if the sends it comes to succeed. |
| ClientRuns.ConnackOpensWindowIff | mosquitto-1.6.9/lib/handle_connack.c:100-110 | A CONNACK establishes the window if and only if nothing is in flight and nothing waits (or the maximum is 0): it resets the quota without regard to the list, whatever its reason code and the sends. |
| ClientRuns.AckKeepsWindowIff | mosquitto-1.6.9/lib/handle_pubackcomp.c:59-117 | A PUBACK or PUBCOMP keeps the window if and only if it acknowledges a message in flight with its QoS and the send it makes room for succeeds, or the quota is at its maximum. |
| ClientRuns.StrayAckBreaksWindow | mosquitto-1.6.9/lib/handle_pubackcomp.c:59-64 | An acknowledgement of nothing in flight raises the quota and breaks the window. |
| ClientRuns.StrayAckExample | mosquitto-1.6.9/lib/handle_pubackcomp.c:59-64 | A new client with one of two allowed messages in flight loses the window by an acknowledgement of an unknown identifier. |
| ClientRuns.PendingConnackExample | mosquitto-1.6.9/lib/handle_connack.c:100-110 | And by a new connection with its CONNACK while the message is pending. |
| ClientRuns.PubrecKeepsWindowIff | mosquitto-1.6.9/lib/handle_pubrec.c:82-100 | A successful PUBREC keeps the window if and only if it does not name a QoS 2 message that was never sent. |
| ClientRuns.FailedPubrecKeepsWindowIff | mosquitto-1.6.9/lib/handle_pubrec.c:82-100 | A failing PUBREC keeps it under the condition for acknowledgements. |
| ClientRuns.PublishKeepsWindowIff | mosquitto-1.6.9/lib/actions.c:105-157 | Publishing keeps the window if and only if the message has to wait or its send succeeds. |
| ClientRuns.StepKeepsWindowIff | mosquitto-1.6.9/lib/messages_mosq.c:120-216 | Every event keeps the window if and only if it meets its condition on the state before, whatever the sends do. |
| ClientRuns.AcksInFlightKeep | mosquitto-1.6.9/lib/handle_pubackcomp.c:59-117 | With sends that succeed, acknowledging what is in flight keeps the window. |
| ClientRuns.WindowOverRuns | mosquitto-1.6.9/lib/messages_mosq.c:120-216 | Over a whole run the window holds after every event if and only if every event meets its condition. |
| ClientPhases.MidClosedForm | mosquitto-1.6.9/lib/util_mosq.c:132-151 | The k-th identifier from now on in closed form. |
| ClientPhases.MidsDistinct | mosquitto-1.6.9/lib/util_mosq.c:132-151 | Any 65535 identifiers in a row are non-zero and pairwise distinct. |
| ClientPhases.ResetKeepsPhaseIff | mosquitto-1.6.9/lib/messages_mosq.c:161-184 | At a reconnect a message past its PUBREC keeps its phase if and only if its position is below the inflight maximum; beyond, it counts as unsent. |
| ClientPhases.PubrecReleases | mosquitto-1.6.9/lib/handle_pubrec.c:82-100 | A successful PUBREC takes the message past the PUBREC phase, if identities are distinct (which `ClientQos2.ConservedDistinct` says of every reachable state). |
| ClientPhases.StepStaysPast | mosquitto-1.6.9/lib/messages_mosq.c:161-339 | No event publishes such a message again or takes it back, if a reconnect finds a list that fits the window. |
| ClientPhases.NeverPublishedAgain | mosquitto-1.6.9/lib/messages_mosq.c:161-339 | Section 4.3.3, from any state: over any run with any number of such reconnects a message past its PUBREC is never published again. |
| ClientQos2.ConservedDistinct | mosquitto-1.6.9/lib/messages_mosq.c:120-136 | The books keep the identities of pending messages apart. |
| ClientQos2.PubrecEndsPublishing | mosquitto-1.6.9/lib/handle_pubrec.c:82-111 | Section 4.3.3 as a theorem about runs of a new client: after any run and a PUBREC that it handles with success, no run whose reconnects find the list within the maximum publishes that message again. |
| ClientQos2.ReleasePublishes | mosquitto-1.6.9/lib/messages_mosq.c:188-216 | A release with enough quota hands the PUBLISH of an unsent message to the sender. |
| ClientQos2.BeyondMaximumPublishedAgain | mosquitto-1.6.9/lib/messages_mosq.c:161-184 | The condition on reconnects is needed: a message at a position beyond the maximum is published again after a reconnect, a CONNACK that allows enough and one more message, whatever its phase was. |
| ClientQos2.PublishedAgainExample | mosquitto-1.6.9/lib/messages_mosq.c:161-184 | A reachable state in which a message past its PUBREC is published again. |
| ClientPhases.RetryHands | mosquitto-1.6.9/lib/messages_mosq.c:274-310 | A retry hands over exactly what each message of the list waits for, in order. |
| ClientConservation.FreshConserved | mosquitto-1.6.9/lib/messages_mosq.c:120-136 | A fresh client keeps the books. |
| ClientConservation.StepConserves | mosquitto-1.6.9/lib/messages_mosq.c:120-272 | Every event keeps them, whether its sends succeed or fail. |
| ClientConservation.RunConserves | mosquitto-1.6.9/lib/messages_mosq.c:120-272 | Over all runs: the outgoing list is what was accepted, in order, minus what was removed; QoS 2 received is delivered, pending or dropped; all incoming entries have QoS 2 and both queue lengths are the list lengths. |
| ClientConservation.DeliveredAtMostOnce | mosquitto-1.6.9/lib/handle_pubrel.c:97-123 | Every message is delivered at most once, and received = delivered + pending + dropped. |
| ClientConservation.DeliveryOnlyByPubrel | mosquitto-1.6.9/lib/handle_pubrel.c:97-123 | Delivery happens at a PUBREL and at no other event. |
| ClientConservation.KeptWithout | mosquitto-1.6.9/lib/messages_mosq.c:219-246 | Removing a message deletes exactly it from the accepted ones in order. |
| ClientAnswers.AnsweredAtOnce | mosquitto-1.6.9/lib/handle_publish.c:119-167 | A PUBLISH that arrives is answered by exactly one PUBACK (QoS 1) or PUBREC (QoS 2), a PUBREL by exactly one PUBCOMP, unless refused, and by nothing else. |
| ClientAnswers.PubrecAnswered | mosquitto-1.6.9/lib/handle_pubrec.c:82-110 | A PUBREC that reports no failure is answered by exactly one PUBREL, unless it names a message with QoS 1. |
| ClientAnswers.RunAnswers | mosquitto-1.6.9/lib/handle_publish.c:119-167 | Over any run the PUBACKs, PUBRECs and PUBCOMPs sent are those that were due, in the order of the packets they answer. |
| ClientAnswers.NewClientAnswers | mosquitto-1.6.9/lib/handle_publish.c:154-162 | A new client, whatever happens to it, has sent one PUBREC for each QoS 2 message it received. |
| ClientReconnect.RunFits | mosquitto-1.6.9/lib/messages_mosq.c:138-187 | Over any run each outgoing message is in a state of its QoS. |
| ClientReconnect.ReconnectResends | mosquitto-1.6.9/lib/messages_mosq.c:274-308 | After any run, once a client is connected again and accepted it has sent again, in order, what is due for its first messages, as many as the inflight maximum: the PUBLISH as a duplicate, or behind a PUBREC the PUBREL. |
| ClientReconnect.ReleaseHands | mosquitto-1.6.9/lib/messages_mosq.c:188-216 | When sends succeed, a release publishes the unsent messages in order, as many as there is quota. |
| ClientReconnect.PublishedAtOnce | mosquitto-1.6.9/lib/actions.c:105-157 | A message published while nothing waits goes out at once if there is quota, with the QoS asked for, under the next identifier and not as a duplicate. |
| ClientReconnect.RefusesOnlyAtMaximum | mosquitto-1.6.9/lib/handle_publish.c:71-79 | After any run a client refuses a PUBLISH only if it uses v5 and as many messages as its receive maximum wait for their PUBREL. |
| ClientReconnect.ActiveRule | mosquitto-1.6.9/lib/handle_connack.c:80-128 | A client becomes active by an accepting CONNACK only, and stops being so by a disconnect or a new connection only. |
| BrokerSpec.RemoveIsRelist | mosquitto-1.6.9/src/database.c:265-284 | Removing a message takes exactly its share from the counters and one reference. |
| BrokerSpec.DequeueKeeps | mosquitto-1.6.9/src/database.c:287-297 | Moving the head of the queue in flight changes no counter, no reference and not the order of the line. |
| BrokerSpec.SameLineupSameTotals | mosquitto-1.6.9/src/database.c:287-297 | Two ways to split the same line of messages agree in all totals and references. |
| BrokerSpec.AddMovesDriftIff | mosquitto-1.6.9/src/database.c:468-486 | The counters follow an inserted message exactly, if and only if not a QoS above 0 is requested of a client whose maximum is 0. |
| BrokerFlow.AckedRemovesNamed | mosquitto-1.6.9/src/database.c:307-318 | An acknowledgement is accepted exactly if it fits every message it names, and then removes those and no other. |
| BrokerFlow.RefusedAckStops | mosquitto-1.6.9/src/database.c:309-314 | A refused acknowledgement has removed what it fitted before the first message it does not fit. |
| BrokerFlow.AcceptedAckFillsWindow | mosquitto-1.6.9/src/database.c:300-342 | After an accepted acknowledgement a message waits only if the maximum is reached, nothing is let in beyond it, and the line is the old one without the named messages. |
| BrokerFlow.RequeueCounts | mosquitto-1.6.9/src/database.c:788-810 | The queue loop of a reconnect counts every message once and keeps the line, although it moves the head whenever any message is ready. |
| BrokerFlow.ResetOutgoingRestores | mosquitto-1.6.9/src/database.c:747-812 | After a reconnect the outgoing counters are exact whatever they were, every message is in line, and one that waited for PUBCOMP goes on with PUBREL. |
| BrokerFlow.ResetIncomingRestores | mosquitto-1.6.9/src/database.c:816-875 | After a reconnect the incoming counters are exact and exactly the QoS 2 messages in flight and the queued ones are in line. |
| BrokerFlow.ReleasedRemovesNamed | mosquitto-1.6.9/src/database.c:900-926 | A PUBREL that is not stopped removes exactly the messages it names, all of QoS 2; it is not stopped if they are and could be handed on. |
| BrokerFlow.ReleaseQueueKeeps | mosquitto-1.6.9/src/database.c:929-942 | The queue loop that follows keeps line and counters. |
| BrokerFlow.WriteOutSettles | mosquitto-1.6.9/src/database.c:1022-1102 | A write that succeeds leaves nothing in flight unsent or expired. |
| BrokerFlow.WriteOutKeepsAbove0 | mosquitto-1.6.9/src/database.c:1022-1102 | Only expiry or an oversize packet takes a message with a QoS above 0 out of the line, as only messages of QoS 0 are in the state to be published as such (which `Broker.Database.Run` says of every reachable state). |
| BrokerStates.HandedFits | mosquitto-1.6.9/src/subs.c:68-113 | Handing messages out keeps that only messages of QoS 0 are in that state. |
| BrokerStates.RequeueFits | mosquitto-1.6.9/src/database.c:788-810 | And so does the queue loop of a reconnect. |
| BrokerStates.WriteFits | mosquitto-1.6.9/src/database.c:950-1146 | And writing. |
| BrokerStates.StepFits | mosquitto-1.6.9/src/database.c:300-1146 | And every operation of the broker. |
| BrokerStates.RunFits | mosquitto-1.6.9/src/database.c:300-1146 | And every run. |
| BrokerMachine.FirstFromIs | mosquitto-1.6.9/src/database.c:721-743 | The first message received with an identifier, by its position. |
| BrokerMachine.ExpiryLosesQuota | mosquitto-1.6.9/src/database.c:1022-1036 | A reachable state in which nothing is in flight to a client and no quota is left: a message that expires in flight does not give its quota back. |
| BrokerFlow.WriteCounted | mosquitto-1.6.9/src/database.c:950-1146 | Writing keeps the counters as exact as they were. |
| BrokerFlow.DeliveredCounted | mosquitto-1.6.9/src/database.c:457-486 | Inserting keeps the counters of every client exact as far as they are meant to be. |
| BrokerFlow.HandedOnce | mosquitto-1.6.9/src/database.c:371-382 | Without duplicates a message is not handed again, to a client not using v5, under a client identifier that had it, be it another connection. |
| BrokerWindow.JoinsFlightIff | mosquitto-1.6.9/src/database.c:40-68 | A message above QoS 0 joins the flight of a client exactly if it is connected, its quota is not used up and the bytes stay below the limit, each as far as there is one; it is then ready to be published. Otherwise it waits at the end of the queue or is dropped. |
| BrokerWindow.WaitsIff | mosquitto-1.6.9/src/database.c:71-108 | It waits exactly if the queue has room for it in messages and in bytes, with the difference of the bytes taken as an unsigned number. |
| BrokerWindow.Qos0NeedsConnection | mosquitto-1.6.9/src/database.c:383-437 | A message with QoS 0 goes in flight to every connected client, and is queued for another exactly if that is configured or it is a lazy bridge, and there is room. |
| BrokerWindow.HandedWithinQuota | mosquitto-1.6.9/src/database.c:344-529 | However many messages are handed out, those above QoS 0 that join the flight of a client are at most as many as the quota it had, and use it up. |
| BrokerWindow.OfflineQueueBounded | mosquitto-1.6.9/src/database.c:71-108 | What waits for a client that is not connected stays within the limit on messages, or where it was. |
| BrokerWindow.ReceivedInFlightIff | mosquitto-1.6.9/src/database.c:397-423 | A QoS 2 message that a client publishes waits for its PUBREL in flight exactly if receive quota and bytes allow it. |
| BrokerWindow.RequeueBounded | mosquitto-1.6.9/src/database.c:788-809 | The queue loop of a reconnect takes no more in flight than there is quota and than messages with QoS 0 are queued. |
| BrokerWindow.ReconnectOvershoots | mosquitto-1.6.9/src/database.c:788-809 | Two messages of QoS 1 and one of QoS 0 wait, and one may be in flight: a reconnect takes both of QoS 1 in flight. |
| BrokerWindow.ReconnectKeepsWindowIff | mosquitto-1.6.9/src/database.c:747-781 | A reconnect sets the send quota to its maximum whatever is in flight, so flight and quota stay within the maximum exactly if nothing above QoS 0 was in flight. |
| BrokerWindow.WriteWithinQuota | mosquitto-1.6.9/src/database.c:1124-1143 | A write takes no more queued messages in flight than there is send quota, and if it succeeds messages wait only without quota. |
| BrokerWindow.WriteMovesOn | mosquitto-1.6.9/src/database.c:1048-1102 | What a write makes of each message in flight: after its PUBLISH it waits for PUBACK or PUBREC with the dup flag set, after its PUBREL for PUBCOMP. |
| BrokerWindow.WriteOutSends | mosquitto-1.6.9/src/database.c:1022-1103 | A write that succeeds has sent a packet for each message that had one; one that fails stopped at the first that could not be sent, a PUBLISH that is too large being passed over. |
| BrokerWindow.WriteInMovesOn | mosquitto-1.6.9/src/database.c:975-1020 | An incoming message whose PUBREC or PUBCOMP is due waits for its PUBREL after a write, and all others stay as they are. |
| BrokerWindow.WriteQueueInMoves | mosquitto-1.6.9/src/database.c:1105-1122 | A write moves an incoming message in flight for each queued one with QoS 2, as many as there is receive quota. |
| BrokerWindow.AckAcceptedIff | mosquitto-1.6.9/src/database.c:300-341 | A PUBACK is accepted exactly if all messages in flight that it names have QoS 1, a PUBCOMP exactly if all have QoS 2 and got their PUBREC; they leave, and messages wait only at the maximum. |
| BrokerWindow.AckQuota | mosquitto-1.6.9/lib/handle_pubackcomp.c:59-61 | An acknowledgement gives back one of the send quota, and each message it lets in takes one. |
| BrokerWindow.PubrecAcceptedIff | mosquitto-1.6.9/lib/handle_pubrec.c:71-75 | A PUBREC is accepted exactly if the first message it names has QoS 2, and then a PUBCOMP is due; one that reports a failure exactly if all it names wait for it, and they leave. |
| BrokerWindow.ReleaseQueueMoves | mosquitto-1.6.9/src/database.c:929-942 | After a PUBREL as many queued messages are looked at as fit beside those that were in flight, and one moves for each of them with QoS 2. |
| BrokerWindow.SessionPasses | mosquitto-1.6.9/src/handle_connect.c:128-143 | A session passes whole: all outgoing messages and the incoming QoS 2 ones stay in line, the counters are exact, and what waited for PUBCOMP goes on with PUBREL. |
| BrokerRules.OthersUntouched | mosquitto-1.6.9/src/database.c:344-529 | Handing a message out changes nothing for a client it is not for. |
| BrokerRules.RetainedIs | mosquitto-1.6.9/src/subs.c:140-165 | After a publish a topic holds the message if it was retained there, nothing if that was empty, and what it held before if not. |
| BrokerRules.RepeatIgnored | mosquitto-1.6.9/src/handle_publish.c:298-345 | A QoS 2 PUBLISH whose identifier is still in line changes nothing at all. |
| BrokerRules.FirstTime | mosquitto-1.6.9/src/database.c:633-719 | Otherwise the message is new, with the next id and its expiry counted from now. |
| BrokerRules.OneNamed | mosquitto-1.6.9/src/database.c:888-927 | A PUBREL that names one message hands that one on, once, if it has QoS 2 and a topic; one that names nothing hands on nothing. |
| BrokerRules.PublishQuota | mosquitto-1.6.9/src/handle_publish.c:316-346 | A PUBLISH of QoS 1 costs one of the receive quota until it is answered; other QoS leave it alone. |
| BrokerBooks.BookedAdd | mosquitto-1.6.9/src/database.c:690-705 | A message with a new id joins the store with no references. |
| BrokerBooks.BookedDec | mosquitto-1.6.9/src/database.c:240-247 | Giving up a reference: the count says whether it was the last. |
| BrokerBooks.BookedWithout | mosquitto-1.6.9/src/database.c:190-212 | Taking a message without references out keeps list, counts and totals right. |
| BrokerBooks.CompactLeaves | mosquitto-1.6.9/src/database.c:250-262 | With right counts, what compacting leaves is what is referred to. |
| Broker.Database.constructor | mosquitto-1.6.9/src/database.c:111-145 | An empty store keeps the books. |
| Broker.Database.StoreRemove | mosquitto-1.6.9/src/database.c:190-220 | The message leaves the list, and count and bytes follow. |
| Broker.Database.RefInc | mosquitto-1.6.9/src/database.c:235-238 | One more reference is counted. |
| Broker.Database.RefDec | mosquitto-1.6.9/src/database.c:240-247 | The message leaves the store exactly with its last reference. |
| Broker.Database.MessageStore | mosquitto-1.6.9/src/database.c:633-718 | A new message with a fresh id at the head of the list. |
| Broker.Database.StoreCompact | mosquitto-1.6.9/src/database.c:250-262 | Afterwards exactly the messages referred to are left, in order. |
| Broker.Database.MessageRemove | mosquitto-1.6.9/src/database.c:265-284 | List, counters and reference of one message. |
| Broker.Database.MessageDequeueFirst | mosquitto-1.6.9/src/database.c:287-297 | The head of the queue moves in flight and uses quota. |
| Broker.Database.Acknowledge | mosquitto-1.6.9/src/database.c:307-318 | The removing loop in place leaves what the list function says. |
| Broker.Database.OpenWindow | mosquitto-1.6.9/src/database.c:320-340 | As many queued messages as fit move in flight, in order, ready to be published. |
| Broker.Database.DeleteOutgoing | mosquitto-1.6.9/src/database.c:300-342 | The whole acknowledgement; the books stay right and exactly the messages that lost their last reference leave the store. |
| Broker.Database.MessageInsert | mosquitto-1.6.9/src/database.c:344-529 | Refuses or admits by the limits, and adds the message to the client and its identifier to those that have had it; with the send quota used up nothing above QoS 0 joins the flight, and with quota left and no byte limit it never waits. When it joins, waits or is dropped is `BrokerWindow.JoinsFlightIff` and `BrokerWindow.WaitsIff`. |
| Broker.Database.UpdateOutgoing | mosquitto-1.6.9/src/database.c:531-546 | The first message with the identifier gets the state, unless its QoS differs. |
| Broker.Database.MessagesDelete | mosquitto-1.6.9/src/database.c:563-583 | Both lists and all counters of both directions are emptied. |
| Broker.Database.MessageStoreFind | mosquitto-1.6.9/src/database.c:721-743 | The first message received with the identifier, those in flight first. |
| Broker.Database.ReconnectResetOutgoing | mosquitto-1.6.9/src/database.c:747-812 | The loops in place compute the reset of the outgoing direction, quotas included. |
| Broker.Database.ReconnectResetIncoming | mosquitto-1.6.9/src/database.c:816-875 | The loops in place compute the reset of the incoming direction, removals included. |
| Broker.Database.ReconnectReset | mosquitto-1.6.9/src/database.c:878-885 | Both; the counters are exact afterwards whatever they were. |
| Broker.Database.MessagesQueue | mosquitto-1.6.9/src/subs.c:804-837 | Handing a message to any clients and topics keeps the books; afterwards it is in the store exactly if somebody refers to it. |
| Broker.Database.Retain | mosquitto-1.6.9/src/subs.c:134-157 | The retained message of a topic is replaced, and the old one leaves with its last reference. |
| Broker.Database.ReleaseIncoming | mosquitto-1.6.9/src/database.c:888-948 | The incoming data of a PUBREL as the list functions say, and the released messages handed on in order, until one stops it. |
| BrokerBooks.HandedIgnoresIn | mosquitto-1.6.9/src/subs.c:68-113 | Handing a message out neither depends on nor changes what is incoming. |
| Broker.Database.WriteInflightIn | mosquitto-1.6.9/src/database.c:975-1020 | The loop in place over incoming messages, for any results of the sends. |
| Broker.Database.WriteInflightOut | mosquitto-1.6.9/src/database.c:1022-1102 | The loop in place over outgoing messages, for any results of the sends. |
| Broker.Database.WriteQueuedIn | mosquitto-1.6.9/src/database.c:1105-1122 | The loop over the queued incoming messages. |
| Broker.Database.MessageWrite | mosquitto-1.6.9/src/database.c:950-1146 | The whole write, and the books stay right. |
| Broker.Database.TakeOver | mosquitto-1.6.9/src/handle_connect.c:128-143 | A session that has messages passes to another client without a reference lost or counted twice, and the counters are exact afterwards; one without is left alone. |
| Broker.Database.Resume | mosquitto-1.6.9/src/handle_connect.c:109-143 | A client with the identifier of the session connects and takes it over, or finds it without messages. |
| Broker.Database.BridgeRestart | mosquitto-1.6.9/src/bridge.c:120-144 | A bridge resets its own lists before it connects, and empties them if it starts clean; the counters are exact afterwards. |
| Broker.Database.IncrementQuota | mosquitto-1.6.9/lib/util_mosq.c:206-218 | The quota of one direction rises, up to its maximum. |
| Broker.Database.HandlePubackcomp | mosquitto-1.6.9/lib/handle_pubackcomp.c:50-95 | The send quota is raised before anything is checked, then the acknowledgement is that of `DeleteOutgoing`. |
| Broker.Database.HandlePubrec | mosquitto-1.6.9/lib/handle_pubrec.c:48-112 | Success marks the message as waiting for PUBCOMP; failure removes it, if it waits for its PUBREC. |
| Broker.Database.HandlePubrel | mosquitto-1.6.9/lib/handle_pubrel.c:52-108 | The messages named are released and handed on, and the receive quota is raised for the PUBCOMP also when none was found. |
| Broker.Database.HandlePublish | mosquitto-1.6.9/src/handle_publish.c:298-346 | The first message still in line with the identifier is reused, else one with a fresh id is stored; it is handed on, or with QoS 2 put in line; repeating a QoS 2 PUBLISH changes nothing. A PUBLISH of QoS 1 takes receive quota, and its PUBACK gives it back. |
| Broker.Database.Step | mosquitto-1.6.9/src/database.c:179-1146 | Every operation, with its loops and shared references, is the step of the state machine `BrokerMachine.StepOf` on clients, records of deliveries, retained messages and ids, and keeps the books. |
| Broker.Database.Run | mosquitto-1.6.9/src/database.c:179-1146 | Over any sequence of operations the database runs like that machine, and: every reference count is the number of references, nothing refers to a removed message, the totals are those of the list, every client's counters say what its lists hold, and only messages of QoS 0 are in the state to be published as such. |
| Decoder.ControlFollowsStream | serialconnect/analyseData.cpp:83-154 | From the first address byte on, the control variables are what the stream says, in whatever state they started. |
| Decoder.CompletesSegments | serialconnect/analyseData.cpp:83-154 | From the second address byte on, exactly the segments between successive address bytes with the length of the channel table are completed. |
| Decoder.DecodersAgree | serialconnect/analyseData.cpp:83-154 | Two decoders in any states agree on every frame from the second address byte on. |
| Decoder.IdleDecoderIsExact | serialconnect/analyseData.cpp:83-154 | A decoder that starts idle completes exactly those segments from the start. |
| ScoreboardFrames.FrameArrives | serialconnect/analyseData.cpp:83-154 | Whatever was received before: when the bytes of a frame and then an address byte arrive, exactly one more frame is handed to the filters, with its channel, and with its digits in every second of the channel's cells. |
| ScoreboardFrames.AddressRead | serialconnect/analyseData.cpp:137-138 | The channel is inverted in bits 5 to 1 of the address byte, the control bit is bit 0. |
| ScoreboardFrames.DataRead | serialconnect/analyseData.cpp:97-98 | A data byte has the number of a digit in bits 6 to 4 and the digit inverted in bits 3 to 0. |
| ScoreboardFrames.LengthTable | serialconnect/analyseData.cpp:40-40 | Six digits on the clock, four on channel 22, eight on the lanes and five other channels, no frames on the rest. |
| Decoder.AnyStream | serialconnect/analyseData.cpp:83-154 | Whatever bytes arrive, the four whole-run guarantees of the filters hold for what is published. |
| Receiver.Receiver.StoreCells | serialconnect/analyseData.cpp:95-99 | Every cell is the inverted nibble from the last frame that set it, else 1; no index leaves its array. |
| Receiver.Receiver.Collect | serialconnect/analyseData.cpp:134-150 | The collecting part is one step of the control state. |
| Receiver.Receiver.PutReadData | serialconnect/analyseData.cpp:83-154 | After each byte cells, filters and published messages are those of the whole stream. |
| Receiver.Receiver.Feed | serialconnect/analyseData.cpp:83-154 | After any bytes the published messages are those of the stream's complete frames, and every cell is the last setting. |
| Scoreboard.TimeEvery21 | serialconnect/analyseRunningTime.cpp:71-96 | After n frames of channel 0 exactly (n-1)/21 times were published. |
| Scoreboard.StartsAndStopsAlternate | serialconnect/analyseStartStop.cpp:46-66 | Starts and stops alternate, beginning with a start. |
| Scoreboard.LooksEverySixth | serialconnect/analyseStartStop.cpp:17-44 | While the clock runs, the counter of frames is the number since the start modulo six. |
| Scoreboard.StopEverySixth | serialconnect/analyseStartStop.cpp:17-66 | A stop comes only with the sixth, twelfth, ... frame of channel 0 after its start. |
| Scoreboard.LanesWaitForTwoTimes | serialconnect/analyseHeader.cpp:44-58 | After a new header at least two times are published before any lane message. |
| Scoreboard.RoundsClimb | serialconnect/serialUtils.cpp:69-111 | Every published round number is 0 or one more than the one before. |
| ScoreboardRules.RoundRule | serialconnect/serialUtils.cpp:69-111 | After any frames, a frame of channel 18 publishes a number exactly if its digits differ from those of the one before it; the number is 0 if all eight cells read 0, and otherwise one more than the last published. |
| ScoreboardRules.SameDigitsIff | serialconnect/serialUtils.cpp:75-77 | As long as no cell reads 10, two frames have the same digits exactly if all their cells read the same. |
| ScoreboardRules.SameTextOtherDigits | serialconnect/serialUtils.cpp:75-77 | With cells that read 10, different digits can give the same text. |
| ScoreboardRules.HeaderRule | serialconnect/analyseHeader.cpp:29-68 | After any frames, a frame of channel 12 publishes its header, twice, exactly if one of its six cells does not read 0 and it differs from the header last published; then lane messages stop and the cache of every lane is null. |
| ScoreboardRules.SwitchRule | serialconnect/analyseStartStop.cpp:17-66 | After any frames, a start is published exactly if the clock stands and one of the cells 6 to 12 is neither 0 nor blank, a stop exactly if it runs, none is, and the frame is the sixth, twelfth, ... since the start; with either the cache of every lane is null. |
| ScoreboardRules.ReleaseRule | serialconnect/analyseRunningTime.cpp:30-97 | Lane messages are allowed or stopped exactly with a published time, by two seconds on the clock, unless a header was published since the time before. |
| ScoreboardRules.TwoSeconds | serialconnect/analyseRunningTime.cpp:30-52 | What more than, less than and exactly two seconds means of the digits. |
| ScoreboardRules.LaneRule | serialconnect/analyseLane.cpp:185-255 | A lane frame is published exactly if lane messages are sent and its time is new and not null, or its place is new and not 0 with the same time. |
| ScoreboardRules.LaneForm | serialconnect/analyseLane.cpp:180-182 | The text of a lane message, character by character. |
| ScoreboardRules.TimeForm | serialconnect/analyseRunningTime.cpp:90-91 | The text of a time message. |
| ScoreboardRules.HeaderForm | serialconnect/analyseHeader.cpp:34-34 | The text of a header. |
| ScoreboardRules.DecimalReads | serialconnect/serialUtils.cpp:106-106 | Numbers are published in decimal digits without leading zeros. |
| ScoreboardRules.OtherChannelsNothing | serialconnect/analyseData.cpp:101-130 | Frames of channels other than 0 to 10, 12 and 18 do nothing. |
| Scoreboard.CacheFollows | serialconnect/analyseLane.cpp:185-239 | After a lane frame the cached time is the frame's if and only if at most two of its digits read 10. |
| Scoreboard.DigitsLength | serialconnect/analyseLane.cpp:158-159 | A time has one character for each digit and one more for each 10. |
| Scoreboard.RepeatedFrameIff | serialconnect/analyseLane.cpp:185-239 | A repeated lane frame is silent and changes nothing if and only if the first one did not clear the cache in spite of a place, and its time fits the cache or nothing is sent. |
| Scoreboard.RepeatedFrameCanPublish | serialconnect/analyseLane.cpp:198-206 | A concrete lane frame that publishes when it is repeated. |
| Scoreboard.SuccessiveMessagesDiffer | serialconnect/analyseLane.cpp:185-239 | While sending stays active and nothing resets the lane, successive messages of the lane differ in time or place. |
| Scoreboard.PayloadTellsResult | serialconnect/analyseLane.cpp:178-181 | Lane messages with the same payload have the same time and place, if no digit reads 10. |
| Scoreboard.TimeParts | serialconnect/analyseLane.cpp:158-159 | The compared time is minutes, seconds and hundredths one after the other. |
| Scoreboard.ClockShape | serialconnect/analyseRunningTime.cpp:71-96 | What a frame of channel 0 publishes and leaves of the counters. |
| Scoreboard.OtherShape | serialconnect/analyseData.cpp:101-130 | What any other frame can publish. |
| Scoreboard.BitValue | serialconnect/helperFunctions.cpp:22-40 | Digits above 10 read as 0, so a digit is at most 10. |
| Board.Board.ResetTimeAndPlace | serialconnect/analyseLane.cpp:33-50 | Clears the cache of one lane. |
| Board.Board.ResetAllData | serialconnect/analyseLane.cpp:52-60 | Clears the caches of all lanes. |
| Board.Board.SendLaneData | serialconnect/analyseLane.cpp:104-139 | Publishes only while sending is active. |
| Board.Board.GetLaneTime | serialconnect/analyseLane.cpp:141-255 | New filters and messages are those of a lane frame; the test for a digit of 13 never holds. |
| Board.Board.CheckNotNull | serialconnect/analyseStartStop.cpp:17-44 | The clock is looked at in every frame while it stands and in every sixth while it runs. |
| Board.Board.CheckStartStop | serialconnect/analyseStartStop.cpp:46-66 | New filters and messages are those of the start/stop filter. |
| Board.Board.TimeHundredth | serialconnect/analyseRunningTime.cpp:30-69 | Sending is active above 200 hundredths, inactive below, unchanged at 200. |
| Board.Board.GetTime | serialconnect/analyseRunningTime.cpp:71-96 | New filters and messages are those of the running time. |
| Board.Board.SetSendActiveStateOff | serialconnect/analyseRunningTime.cpp:109-120 | Sending stops and the next time does not start it. |
| Board.Board.GetHeader | serialconnect/analyseHeader.cpp:29-68 | A new header is published twice, clears all lanes and stops lane messages; the null header does nothing. |
| Board.Board.StoreRounds | serialconnect/serialUtils.cpp:69-111 | The digits are remembered; unless they were the ones remembered a number is published, 0 for all zeros and otherwise one more than the last. |
| Board.Board.Handle | serialconnect/analyseData.cpp:101-130 | The dispatch by channel. |

## Left out

- Sockets, TLS, OCSP, SRV, SOCKS5, signals, poll loops, logging, the configuration parser, the serial, FTDI and GPIO receivers and the sender: input and output or foreign calls.
- Threads, mutexes and callbacks into the application: every handler is one step.
- Allocation failure and freeing; pointers are sequences or objects.
- Websockets: inserting a message never writes to the client at once.
- The subscription tree, persistence, security and will delay: handing a message out is any sequence of insertions and retained replacements, and the answer of the tree is a parameter.
- A stored id given by persistence, and the wrap-around of the 64-bit id counter: ids always come from the counter and grow.
- The deletion of messages in `connection_check_acl` (`mosquitto-1.6.9/src/handle_connect.c:84-101`), which does not update the counters.
- Quota equalities of the broker: insertion, dequeuing, reconnecting and the answers adjust different quotas, and expiry none, so quota and messages in flight need not add up to the maximum (`BrokerMachine.ExpiryLosesQuota` is a reachable state, `BrokerWindow.ReconnectKeepsWindowIff` the condition at a reconnect). Every operation's effect on both quotas is part of its contract.
- The broker's linked lists and the clients' lists are sequences held in fields, so aliasing of list nodes is not modelled; the output queue of packets keeps its nodes and pointers.
- Payload, username, properties and topic text of stored messages, which no modelled operation of the store changes; a stored message keeps the length of its payload and whether it has a topic.
- Callbacks for QoS 0 and 1 messages received, and the content of QoS 0 messages sent: of these the model keeps the identifier and the send.
- Reasons and properties of incoming acknowledgements are read (`AckReader.DecodeAck`) and, but for the reason of a PUBREC, not used.
- What the server does with a CONNECT once it is decoded, except for taking over a session; the prefixes that client ids may need, the mount point of a listener, generated client ids, and the CONNACKs that go with refusals. A plain return code of 1 is the code of failed allocation.
- What the server does for each filter of a SUBSCRIBE: mount point, access control, the subscription tree and retained messages.
- Negative values of the signed 32-bit integers that hold variable byte integers and lengths: the model's lengths are natural numbers.
- The `orderbyplace` variant and the debug output of the lane code, which are compiled out.
- Characters behind the terminator in the scoreboard's text buffers; the header and round buffers are modelled as holding 25 zeros before the first text.
- The name of a message on the MQTT topic of the scoreboard, and the result of publishing it.
- Bitwise operators on bytes are written as division and remainder by powers of two.
- The broker's own checks in the packet reader: CONNECT first, and the maximum packet size.
- Publish.CheckOversize: states the bound as the code computes it, which does not count the command byte.
- Encoders.Connect: requires strings below 65536 bytes, a will payload of at most 65535 bytes and property lists below 2^30 bytes that can be written, outside of which lengths wrap in the source or failing writes are ignored.
- Encoders.Subscribe: requires a body below 2^32 bytes and property lists below 2^30 bytes that can be written, outside of which the source's lengths wrap or failing writes are ignored.
- Encoders.CommandWithMid: requires property lists below 2^30 bytes that can be written, as above.
- PropertyIO.WriteAll: requires that the sum of the lengths fits a signed 32-bit integer and that the images fit into the packet, which the writers assert.
- Publish.RealPublish: requires properties below 2^28 bytes; from there on the source announces a length without them but still writes theirs (`Publish.PublishSizing`), and its writer asserts.
- Matcher.TopicMatchesSub: for invalid filters or topics with wildcards it says only that the latter are never matched, as the source promises an error only in some cases and accepts some invalid filters (`+/#x` for `a`).
- PacketReader.FreshReaderRun: speaks about the bytes taken from the socket so far; that all bytes are taken depends on the socket.
- The reason why a send fails: a send either succeeds or fails, a packet over the maximum size being one that fails.
- ClientPhases.NeverPublishedAgain: requires that reconnects find a list within the inflight maximum; `ClientPhases.ResetKeepsPhaseIff` is the exact condition for one reconnect, and `ClientQos2.BeyondMaximumPublishedAgain` shows what happens without it.
- Access control in the broker's PUBLISH handler, and its answers beyond their effect on the quota; a message that is refused with a v5 PUBREC would also raise the receive quota.
