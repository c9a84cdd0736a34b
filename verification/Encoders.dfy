/** CONNECT, SUBSCRIBE and the acknowledgements as a client builds them: the lengths are summed up in
    advance, the packet is allocated with exactly that room, and each part is then written by a method that
    is proved to append the image of that part. A packet is complete once its room is used up, and it then
    consists of the fixed header and the body. What a server reads from the bodies is in other modules. */
module Encoders {
  import opened Basics
  import opened Wire
  import opened Packets
  import opened Properties
  import opened PropertyIO
  import opened Publish
  import Varint

  datatype Protocol = V31 | V311 | V5

  /** The whole buffer is written, and it consists of the fixed header and the body. */
  ghost predicate Complete(packet: OutPacket, command: Byte, body: seq<Byte>)
    reads packet, packet.payload
  {
    && packet.Valid() && packet.Room() == 0
    && packet.command == command && packet.remainingLength == |body|
    && packet.Written() == [command] + Varint.Encode(|body|) + body
  }

  // ---------- send__command_with_mid ----------

  /** The integer sums of the encoders are exact up to here. */
  const EXACT := 0x4000_0000

  function AckBody(protocol: Protocol, mid: Word16, reasonCode: Byte, properties: seq<Property>): seq<Byte> {
    Uint16(mid)
    + (if protocol == V5 && (reasonCode != 0 || properties != []) then [reasonCode] else [])
    + (if protocol == V5 && properties != [] then Section(properties) else [])
  }

  method CommandWithMid(
    protocol: Protocol, command: Byte, mid: Word16, dup: bool, reasonCode: Byte, properties: seq<Property>)
    returns (rc: Rc, packet: OutPacket?)
    requires command % 16 < 8
    requires protocol == V5 ==> AllWritable(properties) && LengthAll(properties) < EXACT
    ensures var body := AckBody(protocol, mid, reasonCode, properties);
            rc == (if |body| < Varint.LIMIT then Success else PayloadSize) &&
            (rc == Success ==> packet != null && fresh(packet) && fresh(packet.payload) &&
                               Complete(packet, if dup then command + 8 else command, body))
  {
    hide Varint.Encode, Varint.Bytes, LengthAll, AllWritable, Images, Uint16, WriteAllOutcome;
    ghost var body := AckBody(protocol, mid, reasonCode, properties);
    packet := null;
    var command' := if dup then command + 8 else command;
    var remainingLength := 2;
    if protocol == V5 {
      if reasonCode != 0 || properties != [] {
        remainingLength := remainingLength + 1;
      }
      if properties != [] {
        var proplen := GetLengthAll(properties);
        var varbytes := Varint.Bytes(proplen);
        SectionLength(properties);
        remainingLength := remainingLength + varbytes + proplen;
      }
    }
    assert remainingLength == |body|;
    rc, packet := Alloc(command', remainingLength);
    if rc != Success { return; }
    ghost var header := packet.Written();
    ghost var reason := if protocol == V5 && (reasonCode != 0 || properties != []) then [reasonCode] else [];
    ghost var section := if protocol == V5 && properties != [] then Section(properties) else [];
    packet.WriteUint16(mid);
    if protocol == V5 {
      if reasonCode != 0 || properties != [] {
        packet.WriteByte(reasonCode);
      }
      Appended(header, Uint16(mid), reason);
      if properties != [] {
        rc := WriteAll(packet, properties, true);
      }
    }
    Appended(header, Uint16(mid) + reason, section);
  }

  /** A property section is as long as the sum that the encoders compute for it. */
  lemma SectionLength(properties: seq<Property>)
    requires AllWritable(properties) && LengthAll(properties) < 0x8000_0000
    ensures |Section(properties)| == LengthAll(properties) + Varint.Bytes(LengthAll(properties))
    ensures 1 <= Varint.Bytes(LengthAll(properties)) <= 5
  {
    LengthAllIsExact(properties);
    Varint.BytesIsLength(LengthAll(properties));
  }

  // ---------- send__subscribe ----------

  const CMD_SUBSCRIBE := 0x82

  function TopicList(topics: seq<Data>, qos: Byte): seq<Byte> {
    if topics == [] then [] else Block(topics[0]) + [qos] + TopicList(topics[1..], qos)
  }

  function SubscribeBody(protocol: Protocol, mid: Word16, topics: seq<Data>, qos: Byte, properties: seq<Property>): seq<Byte> {
    Uint16(mid) + (if protocol == V5 then Section(properties) else []) + TopicList(topics, qos)
  }

  lemma {:induction false} TopicListSnoc(topics: seq<Data>, topic: Data, qos: Byte)
    ensures TopicList(topics + [topic], qos) == TopicList(topics, qos) + (Block(topic) + [qos])
  {
    hide Uint16;
    if topics == [] {
      assert topics + [topic] == [topic] && [topic][1..] == [];
    } else {
      assert (topics + [topic])[1..] == topics[1..] + [topic];
      TopicListSnoc(topics[1..], topic, qos);
    }
  }

  method Subscribe(protocol: Protocol, mid: Word16, topics: seq<Data>, qos: Byte, properties: seq<Property>)
    returns (rc: Rc, packet: OutPacket?)
    requires protocol == V5 ==> AllWritable(properties) && LengthAll(properties) < EXACT
    requires |SubscribeBody(protocol, mid, topics, qos, properties)| < 0x1_0000_0000
    ensures var body := SubscribeBody(protocol, mid, topics, qos, properties);
            rc == (if |body| < Varint.LIMIT then Success else PayloadSize) &&
            (rc == Success ==> packet != null && fresh(packet) && fresh(packet.payload) &&
                               Complete(packet, 0x82, body))
  {
    hide Varint.Encode, Varint.Bytes, LengthAll, AllWritable, Images, Uint16, TopicList, WriteAllOutcome;
    ghost var body := SubscribeBody(protocol, mid, topics, qos, properties);
    var packetlen := 2;
    if protocol == V5 {
      var proplen := GetLengthAll(properties);
      var varbytes := Varint.Bytes(proplen);
      SectionLength(properties);
      packetlen := packetlen + proplen + varbytes;
    }
    var listLength := TopicListLength(topics, qos);
    packetlen := packetlen + listLength;
    assert packetlen == |body|;
    rc, packet := Alloc(CMD_SUBSCRIBE, packetlen);
    if rc != Success { return; }
    ghost var header := packet.Written();
    packet.WriteUint16(mid);
    ghost var section := if protocol == V5 then Section(properties) else [];
    if protocol == V5 {
      rc := WriteAll(packet, properties, true);
    }
    Appended(header, Uint16(mid), section);
    WriteTopicList(packet, topics, qos);
    Appended(header, Uint16(mid) + section, TopicList(topics, qos));
    return Success, packet;
  }

  /** The first loop over the topics sums up their lengths. */
  method TopicListLength(topics: seq<Data>, qos: Byte) returns (len: nat)
    ensures len == |TopicList(topics, qos)|
  {
    hide TopicList, Uint16;
    len := 0;
    assert topics[..0] == [];
    assert |TopicList([], qos)| == 0 by { EmptyTopicList(qos); }
    for i := 0 to |topics|
      invariant len == |TopicList(topics[..i], qos)|
    {
      assert topics[..i + 1] == topics[..i] + [topics[i]];
      TopicListSnoc(topics[..i], topics[i], qos);
      len := len + 2 + |topics[i]| + 1;
    }
    assert topics[..|topics|] == topics;
  }

  lemma EmptyTopicList(qos: Byte)
    ensures TopicList([], qos) == []
  {}

  /** The second loop writes them. */
  method WriteTopicList(packet: OutPacket, topics: seq<Data>, qos: Byte)
    requires packet.Valid() && packet.Room() >= |TopicList(topics, qos)|
    modifies packet`pos, packet.payload
    ensures packet.Valid() && packet.Written() == old(packet.Written()) + TopicList(topics, qos)
    ensures packet.Room() == old(packet.Room()) - |TopicList(topics, qos)|
  {
    hide TopicList, Uint16;
    ghost var before := packet.Written();
    EmptyTopicList(qos);
    assert topics[..0] == [] && before + [] == before && topics[0..] == topics;
    for i := 0 to |topics|
      invariant packet.Valid() && packet.Written() == before + TopicList(topics[..i], qos)
      invariant packet.Room() == old(packet.Room()) - |TopicList(topics[..i], qos)|
    {
      assert topics[..i + 1] == topics[..i] + [topics[i]];
      TopicListSnoc(topics[..i], topics[i], qos);
      TopicListPrefix(topics, i + 1, qos);
      ghost var written := packet.Written();
      packet.WriteString(topics[i]);
      packet.WriteByte(qos);
      assert written + Block(topics[i]) + [qos] == written + (Block(topics[i]) + [qos]);
      assert before + TopicList(topics[..i], qos) + (Block(topics[i]) + [qos])
          == before + (TopicList(topics[..i], qos) + (Block(topics[i]) + [qos]));
    }
    assert topics[..|topics|] == topics;
  }

  lemma {:induction false} TopicListPrefix(topics: seq<Data>, n: nat, qos: Byte)
    requires n <= |topics|
    ensures |TopicList(topics[..n], qos)| <= |TopicList(topics, qos)|
    decreases |topics| - n
  {
    if n < |topics| {
      assert topics[..n + 1] == topics[..n] + [topics[n]];
      TopicListSnoc(topics[..n], topics[n], qos);
      TopicListPrefix(topics, n + 1, qos);
    } else {
      assert topics[..n] == topics;
    }
  }

  // ---------- send__connect ----------

  const CMD_CONNECT := 0x10

  type Qos = q: nat | q <= 2

  datatype WillMessage = WillMessage(topic: Data, payload: Data, qos: Qos, retain: bool, properties: seq<Property>)

  /** The settings of a client that go into CONNECT; `inflightMaximum` is the receive maximum that
      is announced if the caller's properties do not hold one. */
  datatype Settings = Settings(
    protocol: Protocol, clientId: Option<Data>, username: Option<Data>, password: Option<Data>,
    will: Option<WillMessage>, keepalive: Word16, cleanSession: bool,
    properties: seq<Property>, inflightMaximum: Word16)

  function HasReceiveMaximum(properties: seq<Property>): bool {
    exists i :: 0 <= i < |properties| && properties[i].id == RECEIVE_MAXIMUM
  }

  function LocalProperties(s: Settings): (ps: seq<Property>)
    ensures AllReadable(ps) && LengthAll(ps) <= 3
  {
    if HasReceiveMaximum(s.properties) then []
    else [RawProperty.Property(RECEIVE_MAXIMUM, Int16(s.inflightMaximum))]
  }

  function ProtocolName(protocol: Protocol): Data {
    // "MQIsdp" and "MQTT"
    if protocol == V31 then [77, 81, 73, 115, 100, 112] else [77, 81, 84, 84]
  }

  function Level(protocol: Protocol): Byte {
    match protocol case V31 => 3 case V311 => 4 case V5 => 5
  }

  function ConnectFlags(s: Settings): Byte {
    2 * Bit(s.cleanSession)
    + (if s.will.Some? then 32 * Bit(s.will.value.retain) + 8 * s.will.value.qos + 4 else 0)
    + (if s.username.Some? then 128 else 0) + (if s.password.Some? then 64 else 0)
  }

  function OptionalBlock(data: Option<Data>): seq<Byte> {
    if data.Some? then Block(data.value) else []
  }

  /** Protocol name and level, connect flags and keep alive. */
  function ConnectFront(s: Settings): seq<Byte> {
    Block(ProtocolName(s.protocol)) + [Level(s.protocol)] + [ConnectFlags(s)] + Uint16(s.keepalive)
  }

  function ConnectHeader(s: Settings): seq<Byte> {
    ConnectFront(s) + if s.protocol == V5 then Section(s.properties + LocalProperties(s)) else []
  }

  function WillImage(s: Settings): seq<Byte> {
    if s.will.None? then []
    else (if s.protocol == V5 then Section(s.will.value.properties) else [])
         + Block(s.will.value.topic) + Block(s.will.value.payload)
  }

  function ConnectPayload(s: Settings): seq<Byte> {
    (if s.clientId.Some? then Block(s.clientId.value) else Uint16(0))
    + WillImage(s) + OptionalBlock(s.username) + OptionalBlock(s.password)
  }

  predicate ConnectRefused(s: Settings) {
    (s.protocol == V31 && s.clientId.None?) || (s.protocol != V5 && s.password.Some? && s.username.None?)
  }

  predicate Sendable(s: Settings) {
    && (s.protocol == V5 ==> AllWritable(s.properties) && LengthAll(s.properties) < EXACT)
    && (s.protocol == V5 && s.will.Some? ==>
          AllWritable(s.will.value.properties) && LengthAll(s.will.value.properties) < EXACT)
  }

  /** `headerlen` as `send__connect` sums it up. */
  method HeaderLength(s: Settings) returns (headerlen: nat, proplen: nat)
    requires Sendable(s)
    ensures headerlen == |ConnectHeader(s)| < EXACT + 20
    ensures s.protocol == V5 ==> proplen == LengthAll(s.properties + LocalProperties(s))
    ensures s.protocol == V5 && headerlen < Varint.LIMIT ==> proplen < Varint.LIMIT
  {
    hide Varint.Encode, Varint.Bytes, LengthAll, Images, Uint16, AllWritable, HasReceiveMaximum;
    proplen := 0;
    if s.protocol == V5 {
      headerlen := 10;
      var n := GetLengthAll(s.properties);
      proplen := n;
      n := GetLengthAll(LocalProperties(s));
      proplen := proplen + n;
      var varbytes := Varint.Bytes(proplen);
      ConnectProperties(s);
      headerlen := headerlen + proplen + varbytes;
    } else if s.protocol == V311 {
      headerlen := 10;
    } else {
      headerlen := 12;
    }
  }

  lemma ConnectProperties(s: Settings)
    requires Sendable(s) && s.protocol == V5
    ensures var ps := s.properties + LocalProperties(s);
            LengthAll(ps) == LengthAll(s.properties) + LengthAll(LocalProperties(s)) &&
            AllWritable(LocalProperties(s)) &&
            Images(ps) == Images(s.properties) + Images(LocalProperties(s)) &&
            |Section(ps)| == LengthAll(ps) + Varint.Bytes(LengthAll(ps)) && Varint.Bytes(LengthAll(ps)) <= 5
  {
    hide Varint.Encode, Varint.Bytes, LengthAll, Images, Writable, HasReceiveMaximum;
    var ps := s.properties + LocalProperties(s);
    AllReadableIsWritable(LocalProperties(s));
    ImagesAppend(s.properties, LocalProperties(s));
    SectionLength(ps);
  }

  /** `payloadlen` as `send__connect` sums it up. */
  method PayloadLength(s: Settings) returns (payloadlen: nat)
    requires Sendable(s)
    ensures payloadlen == |ConnectPayload(s)| < EXACT + 0x5_0040
    ensures payloadlen < Varint.LIMIT && s.protocol == V5 && s.will.Some? ==>
              LengthAll(s.will.value.properties) < Varint.LIMIT
  {
    hide Varint.Encode, Varint.Bytes, LengthAll, Images, Uint16, AllWritable;
    payloadlen := if s.clientId.Some? then 2 + |s.clientId.value| else 2;
    if s.will.Some? {
      payloadlen := payloadlen + 2 + |s.will.value.topic| + 2 + |s.will.value.payload|;
      if s.protocol == V5 {
        var willProplen := GetLengthAll(s.will.value.properties);
        var varbytes := Varint.Bytes(willProplen);
        SectionLength(s.will.value.properties);
        payloadlen := payloadlen + willProplen + varbytes;
      }
    }
    if s.username.Some? { payloadlen := payloadlen + 2 + |s.username.value|; }
    if s.password.Some? { payloadlen := payloadlen + 2 + |s.password.value|; }
  }

  /** `send__connect` up to the queueing. */
  method Connect(s: Settings) returns (rc: Rc, packet: OutPacket?)
    requires Sendable(s)
    ensures var body := ConnectHeader(s) + ConnectPayload(s);
            (rc == if s.protocol == V31 && s.clientId.None? then Rc.Protocol
                   else if ConnectRefused(s) then Inval
                   else if |body| < Varint.LIMIT then Success
                   else PayloadSize) &&
            (rc == Success ==> packet != null && fresh(packet) && fresh(packet.payload) &&
                               Complete(packet, 0x10, body))
  {
    hide Varint.Encode, Sendable, ConnectHeader, ConnectPayload;
    packet := null;
    if s.protocol == V31 && s.clientId.None? { return Rc.Protocol, null; }
    var headerlen, proplen := HeaderLength(s);
    if s.protocol == V31 || s.protocol == V311 {
      if s.password.Some? && s.username.None? { return Inval, null; }
    }
    var payloadlen := PayloadLength(s);
    rc, packet := Alloc(CMD_CONNECT, headerlen + payloadlen);
    if rc != Success { return; }
    ghost var header := packet.Written();
    WriteConnectHeader(packet, s, proplen);
    WriteConnectPayload(packet, s);
    Appended(header, ConnectHeader(s), ConnectPayload(s));
  }

  method WriteConnectHeader(packet: OutPacket, s: Settings, proplen: nat)
    requires Sendable(s) && packet.Valid() && packet.Room() >= |ConnectHeader(s)|
    requires s.protocol == V5 ==> proplen == LengthAll(s.properties + LocalProperties(s)) < Varint.LIMIT
    modifies packet`pos, packet.payload
    ensures packet.Valid() && packet.Written() == old(packet.Written()) + ConnectHeader(s)
    ensures packet.Room() == old(packet.Room()) - |ConnectHeader(s)|
  {
    hide Varint.Encode, LengthAll, Images, AllWritable, HasReceiveMaximum, ConnectFront;
    WriteConnectFront(packet, s);
    if s.protocol == V5 {
      ConnectProperties(s);
      WriteConnectProperties(packet, proplen, s.properties, LocalProperties(s));
    }
    Appended(old(packet.Written()), ConnectFront(s),
             if s.protocol == V5 then Section(s.properties + LocalProperties(s)) else []);
  }

  lemma Appended(a: seq<Byte>, b: seq<Byte>, c: seq<Byte>)
    ensures a + b + c == a + (b + c)
    ensures a + [] == a
  {}

  method WriteConnectFront(packet: OutPacket, s: Settings)
    requires packet.Valid() && packet.Room() >= |ConnectFront(s)|
    modifies packet`pos, packet.payload
    ensures packet.Valid() && packet.Written() == old(packet.Written()) + ConnectFront(s)
    ensures packet.Room() == old(packet.Room()) - |ConnectFront(s)|
  {
    hide Uint16, ConnectFlags, Block;
    packet.WriteString(ProtocolName(s.protocol));
    packet.WriteByte(Level(s.protocol));
    packet.WriteByte(ConnectFlags(s));
    packet.WriteUint16(s.keepalive);
  }

  method WriteConnectProperties(packet: OutPacket, proplen: nat, a: seq<Property>, b: seq<Property>)
    requires AllWritable(a) && AllWritable(b) && proplen == LengthAll(a + b) < Varint.LIMIT
    requires LengthAll(a) < Varint.LIMIT && LengthAll(b) < Varint.LIMIT
    requires packet.Valid() && packet.Room() >= |Section(a + b)|
    modifies packet`pos, packet.payload
    ensures packet.Valid() && packet.Written() == old(packet.Written()) + Section(a + b)
    ensures packet.Room() == old(packet.Room()) - |Section(a + b)|
  {
    hide Varint.Encode, LengthAll, Images, AllWritable, WriteAllOutcome;
    ghost var before := packet.Written();
    ImagesAppend(a, b);
    var rc := packet.WriteVarint(proplen);
    rc := WriteAll(packet, a, false);
    rc := WriteAll(packet, b, false);
    Appended(before + Varint.Encode(proplen), Images(a), Images(b));
    Appended(before, Varint.Encode(proplen), Images(a) + Images(b));
  }

  method WriteOptional(packet: OutPacket, data: Option<Data>)
    requires packet.Valid() && packet.Room() >= |OptionalBlock(data)|
    modifies packet`pos, packet.payload
    ensures packet.Valid() && packet.Written() == old(packet.Written()) + OptionalBlock(data)
    ensures packet.Room() == old(packet.Room()) - |OptionalBlock(data)|
  {
    if data.Some? {
      packet.WriteString(data.value);
    }
  }

  method WriteConnectPayload(packet: OutPacket, s: Settings)
    requires Sendable(s) && packet.Valid() && packet.Room() >= |ConnectPayload(s)|
    requires s.protocol == V5 && s.will.Some? ==> LengthAll(s.will.value.properties) < Varint.LIMIT
    modifies packet`pos, packet.payload
    ensures packet.Valid() && packet.Written() == old(packet.Written()) + ConnectPayload(s)
    ensures packet.Room() == old(packet.Room()) - |ConnectPayload(s)|
  {
    hide Varint.Encode, Uint16, AllWritable, WillImage, OptionalBlock, Sendable;
    ghost var before := packet.Written();
    if s.clientId.Some? {
      packet.WriteString(s.clientId.value);
    } else {
      packet.WriteUint16(0);
    }
    ghost var id := if s.clientId.Some? then Block(s.clientId.value) else Uint16(0);
    WriteWill(packet, s);
    WriteOptional(packet, s.username);
    WriteOptional(packet, s.password);
    Appended(before, id, WillImage(s));
    Appended(before, id + WillImage(s), OptionalBlock(s.username));
    Appended(before, id + WillImage(s) + OptionalBlock(s.username), OptionalBlock(s.password));
  }

  method WriteWill(packet: OutPacket, s: Settings)
    requires Sendable(s) && packet.Valid() && packet.Room() >= |WillImage(s)|
    requires s.protocol == V5 && s.will.Some? ==> LengthAll(s.will.value.properties) < Varint.LIMIT
    modifies packet`pos, packet.payload
    ensures packet.Valid() && packet.Written() == old(packet.Written()) + WillImage(s)
    ensures packet.Room() == old(packet.Room()) - |WillImage(s)|
  {
    hide Varint.Encode, LengthAll, Images, Uint16, AllWritable, WriteAllOutcome;
    ghost var before := packet.Written();
    if s.will.Some? {
      if s.protocol == V5 {
        var rc := WriteAll(packet, s.will.value.properties, true);
      }
      packet.WriteString(s.will.value.topic);
      packet.WriteString(s.will.value.payload);
    }
    ghost var section := if s.will.Some? && s.protocol == V5 then Section(s.will.value.properties) else [];
    if s.will.Some? {
      Appended(before, section, Block(s.will.value.topic));
      Appended(before, section + Block(s.will.value.topic), Block(s.will.value.payload));
    }
  }
}
