/** PUBLISH packets (section 3.3): `send__real_publish`, and the decoding half of the client's
    `handle__publish`. */
module Publish {
  import opened Basics
  import opened Wire
  import opened Packets
  import opened Properties
  import opened PropertyIO
  import Utf8
  import Varint

  const CMD_PUBLISH := 0x30

  /** A message on the wire; the identifier is 0 for QoS 0. */
  datatype Message = Message(
    dup: bool, qos: nat, retain: bool,
    topic: Data, mid: Word16, properties: seq<Property>, payload: seq<Byte>)

  function Bit(b: bool): Byte {
    if b then 1 else 0
  }

  function CommandByte(dup: bool, qos: nat, retain: bool): Byte
    requires qos <= 2
  {
    CMD_PUBLISH + 8 * Bit(dup) + 2 * qos + Bit(retain)
  }

  /** Section 3.3.1: packet type 3, then one bit of dup, two of QoS and one of retain. */
  lemma FirstByte(dup: bool, qos: nat, retain: bool)
    requires qos <= 2
    ensures var b := CommandByte(dup, qos, retain);
            b / 16 == 3 && (b / 8 % 2 == 1 <==> dup) && b / 2 % 4 == qos && (b % 2 == 1 <==> retain)
  {}

  /** The variable header and payload of a message. */
  function BodyOf(v5: bool, m: Message): seq<Byte> {
    Block(m.topic)
    + (if m.qos > 0 then Uint16(m.mid) else [])
    + (if v5 then Section(m.properties) else [])
    + m.payload
  }

  /** Section 3.3.2, byte by byte: the length of the topic, the topic, the identifier if there is one, and
      the payload at the very end. */
  predicate Laid(v5: bool, m: Message, b: seq<Byte>) {
    var t, p := |m.topic|, |m.payload|;
    var front := 2 + t + if m.qos > 0 then 2 else 0;
    && |b| >= front + p
    && b[0] as int * 0x100 + b[1] == t && b[2..2 + t] == m.topic
    && (m.qos > 0 ==> b[2 + t] as int * 0x100 + b[3 + t] == m.mid)
    && b[|b| - p..] == m.payload
    && (!v5 ==> |b| == front + p)
  }

  /** The pieces of a message, one after the other, are in that layout. */
  lemma LaidInPieces(v5: bool, m: Message, section: seq<Byte>)
    requires !v5 ==> section == []
    ensures var mid := if m.qos > 0 then Uint16(m.mid) else [];
            var b := Block(m.topic) + mid + section + m.payload;
            Laid(v5, m, b) && b[2 + |m.topic| + |mid|..|b| - |m.payload|] == section
  {
    var t: seq<Byte>, mid := m.topic, if m.qos > 0 then Uint16(m.mid) else [];
    var b := Block(m.topic) + mid + section + m.payload;
    assert b == Uint16(|t|) + t + mid + section + m.payload;
    assert b[2..2 + |t|] == t;
    assert m.qos > 0 ==> b[2 + |t|] == m.mid / 0x100 && b[3 + |t|] == m.mid % 0x100;
    assert b[|b| - |m.payload|..] == m.payload;
    assert b[2 + |t| + |mid|..|b| - |m.payload|] == section;
  }

  /** A message is written in that layout; in between a v5 client writes its properties. */
  lemma WrittenLaid(v5: bool, m: Message)
    ensures var b := BodyOf(v5, m);
            Laid(v5, m, b) &&
            (v5 ==> b[2 + |m.topic| + (if m.qos > 0 then 2 else 0)..|b| - |m.payload|] == Section(m.properties))
  {
    hide Section, Laid;
    LaidInPieces(v5, m, if v5 then Section(m.properties) else []);
  }

  // ---------- Sending ----------

  function ExpiryProperties(expiryInterval: Word32): (ps: seq<Property>)
    ensures AllReadable(ps)
  {
    if expiryInterval > 0 then [RawProperty.Property(MESSAGE_EXPIRY_INTERVAL, Int32(expiryInterval))] else []
  }

  /** The remaining length that `send__real_publish` computes before it writes. */
  function RemainingLength(v5: bool, m: Message): nat {
    var proplen := LengthAll(m.properties);
    2 + |m.topic| + |m.payload| + (if m.qos > 0 then 2 else 0)
    + if v5 && Varint.Bytes(proplen) <= 4 then proplen + Varint.Bytes(proplen) else 0
  }

  /** What it goes on to write: from 2^28 bytes of properties on, it drops the properties but
      still writes their length. */
  function WrittenBody(v5: bool, m: Message): seq<Byte> {
    if v5 && Varint.Bytes(LengthAll(m.properties)) > 4 then
      Block(m.topic) + (if m.qos > 0 then Uint16(m.mid) else []) + Varint.Encode(LengthAll(m.properties)) + m.payload
    else BodyOf(v5, m)
  }

  /** The precomputed length is exact if and only if the properties stay below 2^28 bytes. */
  lemma PublishSizing(v5: bool, m: Message)
    requires AllWritable(m.properties)
    ensures |WrittenBody(v5, m)| == RemainingLength(v5, m) <==> !(v5 && LengthAll(m.properties) >= Varint.LIMIT)
  {
    LengthAllIsExact(m.properties);
    Varint.BytesIsLength(LengthAll(m.properties));
  }

  /** `packet__check_oversize`; a maximum of 0 means that there is none. */
  method CheckOversize(maximumPacketSize: Word32, remainingLength: nat) returns (rc: Rc)
    ensures rc == if maximumPacketSize != 0 && remainingLength + Varint.Bytes(remainingLength) > maximumPacketSize
                  then OversizePacket else Success
  {
    if maximumPacketSize == 0 { return Success; }
    var len := remainingLength + Varint.Bytes(remainingLength);
    if len > maximumPacketSize { return OversizePacket; } else { return Success; }
  }

  /** The message that the arguments of `send__real_publish` describe. */
  function Sent(
    mid: Word16, topic: Data, payload: seq<Byte>, qos: nat, retain: bool, dup: bool,
    cmsgProps: seq<Property>, storeProps: seq<Property>, expiryInterval: Word32): Message
  {
    Message(dup, qos, retain, topic, if qos > 0 then mid else 0,
            cmsgProps + storeProps + ExpiryProperties(expiryInterval), payload)
  }

  /** What is sent carries the caller's properties, then those of the stored message, and last the expiry
      interval if there is one; an identifier goes with a QoS above 0 only. */
  lemma SentParts(
    mid: Word16, topic: Data, payload: seq<Byte>, qos: nat, retain: bool, dup: bool,
    cmsgProps: seq<Property>, storeProps: seq<Property>, expiryInterval: Word32)
    ensures var m := Sent(mid, topic, payload, qos, retain, dup, cmsgProps, storeProps, expiryInterval);
            var a, b := |cmsgProps|, |storeProps|;
            m.properties[..a] == cmsgProps && m.properties[a..a + b] == storeProps &&
            (if expiryInterval == 0 then |m.properties| == a + b
             else |m.properties| == a + b + 1 && m.properties[a + b] == RawProperty.Property(2, Int32(expiryInterval))) &&
            m.mid == (if qos == 0 then 0 else mid) && m.topic == topic && m.payload == payload &&
            m.qos == qos && m.retain == retain && m.dup == dup
  {
    var m := Sent(mid, topic, payload, qos, retain, dup, cmsgProps, storeProps, expiryInterval);
    assert m.properties == cmsgProps + storeProps + ExpiryProperties(expiryInterval);
  }

  /** `send__real_publish` up to the queueing. No write can miss room, and the cursor ends at the
      end of the packet. */
  method RealPublish(
    v5: bool, maximumPacketSize: Word32,
    mid: Word16, topic: Data, payload: seq<Byte>, qos: nat, retain: bool, dup: bool,
    cmsgProps: seq<Property>, storeProps: seq<Property>, expiryInterval: Word32)
    returns (rc: Rc, packet: OutPacket?)
    requires qos <= 2 && |payload| <= 0x0FFF_FFFF
    requires v5 ==> AllWritable(cmsgProps) && AllWritable(storeProps)
    requires v5 ==> LengthAll(cmsgProps) + LengthAll(storeProps) + LengthAll(ExpiryProperties(expiryInterval)) < Varint.LIMIT
    ensures var m := Sent(mid, topic, payload, qos, retain, dup, cmsgProps, storeProps, expiryInterval);
            var body := BodyOf(v5, m);
            (rc == if maximumPacketSize != 0 && |body| + Varint.Bytes(|body|) > maximumPacketSize then OversizePacket
                   else if |body| >= Varint.LIMIT then PayloadSize
                   else Success) &&
            (rc == Success ==>
               packet != null && fresh(packet) && packet.Valid() && packet.Room() == 0 &&
               packet.command == CommandByte(dup, qos, retain) && packet.remainingLength == |body| &&
               packet.Written() == [packet.command] + Varint.Encode(|body|) + body)
    // section 3.3.1: the packet type, and where the flags stand
    ensures rc == Success ==>
              var first := packet.Written()[0];
              first / 16 == 3 && (first / 8 % 2 == 1 <==> dup) && first / 2 % 4 == qos && (first % 2 == 1 <==> retain)
  {
    hide Varint.Encode, LengthAll, Images, AllWritable, BodyOf, Uint16, Varint.Bytes, CommandByte, Front, PropertyBlock;
    packet := null;
    ghost var m := Sent(mid, topic, payload, qos, retain, dup, cmsgProps, storeProps, expiryInterval);
    ghost var body := BodyOf(v5, m);
    var expiryProps := ExpiryProperties(expiryInterval);
    AllReadableIsWritable(expiryProps);
    Pieces(v5, m, mid, cmsgProps, storeProps, expiryProps);
    FirstByte(dup, qos, retain);
    var packetlen, proplen := Measure(v5, topic, payload, qos, cmsgProps, storeProps, expiryProps);
    assert packetlen == |body|;
    rc := CheckOversize(maximumPacketSize, packetlen);
    if rc != Success { return; }
    rc, packet := Alloc(CommandByte(dup, qos, retain), packetlen);
    if rc != Success { return; }
    ghost var properties := if v5 then PropertyBlock(proplen, cmsgProps, storeProps, expiryProps) else [];
    assert body == Front(topic, qos, mid) + properties + payload;
    WriteBody(packet, v5, topic, qos, mid, proplen, cmsgProps, storeProps, expiryProps, payload);
  }

  /** The length that is announced, and the length of the properties in it. */
  method Measure(
    v5: bool, topic: Data, payload: seq<Byte>, qos: nat,
    cmsgProps: seq<Property>, storeProps: seq<Property>, expiryProps: seq<Property>)
    returns (packetlen: nat, proplen: nat)
    requires v5 ==> LengthAll(cmsgProps) + LengthAll(storeProps) + LengthAll(expiryProps) < Varint.LIMIT
    ensures proplen == if v5 then LengthAll(cmsgProps) + LengthAll(storeProps) + LengthAll(expiryProps) else 0
    ensures packetlen == 2 + |topic| + |payload| + (if qos > 0 then 2 else 0)
                         + if v5 then proplen + Varint.Bytes(proplen) else 0
  {
    hide LengthAll;
    packetlen := 2 + |topic| + |payload|;
    if qos > 0 { packetlen := packetlen + 2; }
    proplen := 0;
    if v5 {
      var n := GetLengthAll(cmsgProps);
      proplen := n;
      n := GetLengthAll(storeProps);
      proplen := proplen + n;
      n := GetLengthAll(expiryProps);
      proplen := proplen + n;
      var varbytes := Varint.Bytes(proplen);
      // 5 bytes would mean that the properties are dropped
      assert varbytes <= 4;
      packetlen := packetlen + proplen + varbytes;
    }
  }

  method WriteBody(
    packet: OutPacket, v5: bool, topic: Data, qos: nat, mid: Word16, proplen: nat,
    a: seq<Property>, b: seq<Property>, c: seq<Property>, payload: seq<Byte>)
    requires v5 ==> proplen < Varint.LIMIT && AllWritable(a) && AllWritable(b) && AllWritable(c)
    requires v5 ==> LengthAll(a) < Varint.LIMIT && LengthAll(b) < Varint.LIMIT && LengthAll(c) < Varint.LIMIT
    requires packet.Valid()
    requires packet.Room() >= |Front(topic, qos, mid) + (if v5 then PropertyBlock(proplen, a, b, c) else []) + payload|
    modifies packet`pos, packet.payload
    ensures packet.Valid()
    ensures packet.Written() == old(packet.Written())
                                + (Front(topic, qos, mid) + (if v5 then PropertyBlock(proplen, a, b, c) else []) + payload)
    ensures packet.Room() == old(packet.Room())
                             - |Front(topic, qos, mid) + (if v5 then PropertyBlock(proplen, a, b, c) else []) + payload|
  {
    hide Varint.Encode, LengthAll, Images, AllWritable, Front, PropertyBlock;
    WriteFront(packet, topic, qos, mid);
    if v5 {
      WritePropertyLists(packet, proplen, a, b, c);
    }
    if |payload| > 0 {
      packet.WriteBytes(payload);
    }
  }

  function Front(topic: Data, qos: nat, mid: Word16): seq<Byte> {
    Block(topic) + if qos > 0 then Uint16(mid) else []
  }

  method WriteFront(packet: OutPacket, topic: Data, qos: nat, mid: Word16)
    requires packet.Valid() && packet.Room() >= |Front(topic, qos, mid)|
    modifies packet`pos, packet.payload
    ensures packet.Valid() && packet.Written() == old(packet.Written()) + Front(topic, qos, mid)
    ensures packet.Room() == old(packet.Room()) - |Front(topic, qos, mid)|
  {
    hide Uint16;
    packet.WriteString(topic);
    if qos > 0 {
      packet.WriteUint16(mid);
    }
  }

  function PropertyBlock(proplen: nat, a: seq<Property>, b: seq<Property>, c: seq<Property>): seq<Byte> {
    Varint.Encode(proplen) + Images(a) + Images(b) + Images(c)
  }

  method WritePropertyLists(packet: OutPacket, proplen: nat, a: seq<Property>, b: seq<Property>, c: seq<Property>)
    requires proplen < Varint.LIMIT && AllWritable(a) && AllWritable(b) && AllWritable(c)
    requires LengthAll(a) < Varint.LIMIT && LengthAll(b) < Varint.LIMIT && LengthAll(c) < Varint.LIMIT
    requires packet.Valid() && packet.Room() >= |PropertyBlock(proplen, a, b, c)|
    modifies packet`pos, packet.payload
    ensures packet.Valid() && packet.Written() == old(packet.Written()) + PropertyBlock(proplen, a, b, c)
    ensures packet.Room() == old(packet.Room()) - |PropertyBlock(proplen, a, b, c)|
  {
    hide Varint.Encode, LengthAll, Images, Writable, AllWritable, WriteAllOutcome;
    ghost var before := packet.Written();
    var rc := packet.WriteVarint(proplen);
    rc := WriteAll(packet, a, false);
    rc := WriteAll(packet, b, false);
    rc := WriteAll(packet, c, false);
    assert before + Varint.Encode(proplen) + Images(a) + Images(b) + Images(c) == before + PropertyBlock(proplen, a, b, c);
  }

  lemma SmallBytes(n: nat)
    requires n < Varint.LIMIT
    ensures Varint.Bytes(n) == |Varint.Encode(n)| <= 4
  {
    Varint.BytesIsLength(n);
    Varint.PowerFour();
    Varint.EncodeLength(n, 4);
  }

  /** The property section of the whole list, in the pieces in which it is written. */
  lemma {:induction false} SectionPieces(a: seq<Property>, b: seq<Property>, c: seq<Property>)
    requires AllWritable(a) && AllWritable(b) && AllWritable(c)
    ensures var proplen := LengthAll(a) + LengthAll(b) + LengthAll(c);
            Section(a + b + c) == PropertyBlock(proplen, a, b, c) &&
            |PropertyBlock(proplen, a, b, c)| == |Varint.Encode(proplen)| + proplen
  {
    hide Varint.Encode, Images, AllWritable, LengthAll, Typed, KindOf;
    LengthAllIsExact(a);
    LengthAllIsExact(b);
    LengthAllIsExact(c);
    ImagesAppend(a + b, c);
    ImagesAppend(a, b);
    var proplen := LengthAll(a) + LengthAll(b) + LengthAll(c);
    assert Varint.Encode(proplen) + (Images(a) + Images(b) + Images(c)) == PropertyBlock(proplen, a, b, c);
  }

  /** The body in the pieces in which it is written. */
  lemma {:induction false} Pieces(v5: bool, m: Message, mid: Word16, a: seq<Property>, b: seq<Property>, c: seq<Property>)
    requires m.properties == a + b + c
    requires m.qos > 0 ==> m.mid == mid
    requires v5 ==> AllWritable(a) && AllWritable(b) && AllWritable(c)
    requires v5 ==> LengthAll(a) + LengthAll(b) + LengthAll(c) < Varint.LIMIT
    ensures var proplen := LengthAll(a) + LengthAll(b) + LengthAll(c);
            var front := Front(m.topic, m.qos, mid);
            BodyOf(v5, m) == front + (if v5 then PropertyBlock(proplen, a, b, c) else []) + m.payload &&
            (v5 ==> |PropertyBlock(proplen, a, b, c)| == proplen + Varint.Bytes(proplen) && Varint.Bytes(proplen) <= 4) &&
            |front| == 2 + |m.topic| + if m.qos > 0 then 2 else 0
  {
    hide Varint.Encode, Varint.Bytes, Uint16, AllWritable, Images, LengthAll, Section, PropertyBlock;
    if v5 {
      SectionPieces(a, b, c);
      SmallBytes(LengthAll(a) + LengthAll(b) + LengthAll(c));
    }
  }

  // ---------- Receiving ----------

  /** The decoding part of `handle__publish` (client): everything up to the switch over the QoS. */
  function ParseMessage(v5: bool, receiveQuota: nat, command: Byte, s: seq<Byte>): Parsed<Message> {
    var dup, qos, retain := command / 8 % 2 == 1, command / 2 % 4, command % 2 == 1;
    var (topic, s1) :- ParseString(s);
    if topic == [] then Fail(Protocol)
    else if qos > 0 && v5 && receiveQuota == 0 then Fail(Protocol)
    else
      var (mid, s2) :- if qos > 0 then ParseUint16(s1) else Ok(0, s1);
      if qos > 0 && mid == 0 then Fail(Protocol)
      else
        var (properties, payload) :- if v5 then ParseAll(Command.Publish, s2) else Ok([], s2);
        Ok(Message(dup, qos, retain, topic, mid, properties, payload), [])
  }

  /** The messages for which PUBLISH is specified: QoS 0 to 2, a non-empty UTF-8 topic, an
      identifier exactly if the QoS is positive, and a list of properties that PUBLISH allows. */
  predicate InRange(v5: bool, m: Message) {
    && m.qos <= 2
    && m.topic != [] && Utf8.Accepts(m.topic)
    && (m.qos > 0 <==> m.mid != 0)
    && (if v5 then AllReadable(m.properties) && ListAllowed(Command.Publish, m.properties)
                   && LengthAll(m.properties) < Varint.LIMIT
        else m.properties == [])
  }

  /** Decoding the encoding of a message recovers all of it, for v3.1.1 and v5. */
  lemma {:induction false} PublishRoundTrip(v5: bool, receiveQuota: nat, m: Message)
    requires InRange(v5, m) && (v5 ==> receiveQuota > 0)
    ensures ParseMessage(v5, receiveQuota, CommandByte(m.dup, m.qos, m.retain), BodyOf(v5, m)) == Ok(m, [])
  {
    hide Section, ParseString, ParseAll, ParseUint16, Uint16, Block, Utf8.Accepts, AllReadable, ListAllowed, LengthAll;
    var command := CommandByte(m.dup, m.qos, m.retain);
    assert command / 8 % 2 == Bit(m.dup) && command / 2 % 4 == m.qos && command % 2 == Bit(m.retain);
    var s2 := (if v5 then Section(m.properties) else []) + m.payload;
    var s1 := (if m.qos > 0 then Uint16(m.mid) else []) + s2;
    assert BodyOf(v5, m) == Block(m.topic) + s1;
    StringRoundTrip(m.topic, s1);
    if m.qos > 0 { Uint16RoundTrip(m.mid, s2); } else { assert s1 == s2; }
    if v5 { SectionRoundTrip(Command.Publish, m.properties, m.payload); } else { assert s2 == m.payload; }
  }

  lemma BeginsWithLength(s: seq<Byte>)
    ensures ParseAll(Command.Publish, s).Ok? ==> ParseVarint(s).Ok?
  {
    hide ParseVarint, ParseList, CheckAll;
  }

  /** Whatever is accepted is in that layout, with a topic, and with an identifier where one is due. */
  lemma {:induction false} AcceptedLaid(v5: bool, receiveQuota: nat, command: Byte, s: seq<Byte>)
    requires ParseMessage(v5, receiveQuota, command, s).Ok?
    ensures var m := ParseMessage(v5, receiveQuota, command, s).value;
            Laid(v5, m, s) && m.topic != [] && Utf8.Accepts(m.topic) && (m.qos > 0 <==> m.mid != 0) &&
            (command / 8 % 2 == 1 <==> m.dup) && command / 2 % 4 == m.qos && (command % 2 == 1 <==> m.retain)
  {
    hide ParseString, ParseAll, ParseUint16, Images, Varint.Encode, Utf8.Accepts, AllReadable, ListAllowed, LengthAll;
    hide Laid, Uint16, Block;
    var m := ParseMessage(v5, receiveQuota, command, s).value;
    StringUnique(s);
    var s1 := ParseString(s).rest;
    var mid := if m.qos > 0 then Uint16(m.mid) else [];
    if m.qos > 0 { Uint16Unique(s1); }
    var s2 := if m.qos > 0 then ParseUint16(s1).rest else s1;
    assert s1 == mid + s2;
    var section := [];
    if v5 {
      SectionUnique(Command.Publish, s2);
      BeginsWithLength(s2);
      section := Varint.Encode(ParseVarint(s2).value) + Images(m.properties);
    }
    assert s2 == section + m.payload;
    assert s == Block(m.topic) + mid + section + m.payload;
    LaidInPieces(v5, m, section);
  }

  /** `handle__publish` up to the switch over the QoS. */
  method DecodePublish(v5: bool, receiveQuota: nat, packet: InPacket) returns (rc: Rc, message: Message)
    requires packet.Valid()
    modifies packet`pos
    ensures packet.Valid()
    ensures match ParseMessage(v5, receiveQuota, packet.command, old(packet.Rest()))
            case Ok(m, _) => rc == Success && message == m && packet.Rest() == []
            case Fail(e) => rc == e
    ensures rc == Success ==>
              var first := packet.command;
              (first / 8 % 2 == 1 <==> message.dup) && first / 2 % 4 == message.qos && (first % 2 == 1 <==> message.retain)
  {
    hide ParseString, ParseAll, ParseUint16;
    var header := packet.command;
    message := Message(header / 8 % 2 == 1, header / 2 % 4, header % 2 == 1, [], 0, [], []);
    var topic;
    rc, topic := packet.ReadString();
    if rc != Success { return; }
    message := message.(topic := topic);
    if |topic| == 0 { return Protocol, message; }
    if message.qos > 0 {
      if v5 && receiveQuota == 0 { return Protocol, message; }
      var mid;
      rc, mid := packet.ReadUint16();
      if rc != Success { return; }
      if mid == 0 { return Protocol, message; }
      message := message.(mid := mid);
    }
    if v5 {
      var properties;
      rc, properties := ReadAll(Command.Publish, packet);
      if rc != Success { return; }
      message := message.(properties := properties);
    }
    var payloadlen := packet.payload.Length - packet.pos;
    if payloadlen > 0 {
      var payload;
      rc, payload := packet.ReadBytes(payloadlen);
      if rc != Success { return; }
      message := message.(payload := payload);
    }
    return Success, message;
  }
}
