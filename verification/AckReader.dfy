/** The four acknowledgements on the wire. They share one encoder and, but for the table that checks
    their properties and the reserved flags of PUBREL, one decoder: a reason code and properties are only
    looked for as far as a v5 packet is long enough for them. The packets that the client sends are pinned
    byte by byte, and what was sent is read back as far as the protocol has it. */
module AckReader {
  import opened Basics
  import opened Wire
  import opened Packets
  import opened Properties
  import opened PropertyIO
  import opened Encoders
  import Varint

  // ---------- Reading ----------

  /** What an acknowledgement says. */
  datatype Ack = Ack(mid: Word16, reason: Byte, properties: seq<Property>)

  /** The decoding of `handle__pubackcomp`, `handle__pubrec` and `handle__pubrel`: reason code and properties
      are only looked for as far as a v5 packet is long enough. `list` is the table its properties are
      checked by; `pubrel` says that the reserved flags are checked. */
  function ParseAck(protocol: Protocol, list: Command, pubrel: bool, command: Byte, s: seq<Byte>): Parsed<Ack> {
    if pubrel && protocol != V31 && command % 0x10 != 2 then Fail(Rc.Protocol)
    else
      var (mid, s1) :- ParseUint16(s);
      if mid == 0 then Fail(Rc.Protocol)
      else if protocol != V5 || |s| <= 2 then Ok(Ack(mid, 0, []), s1)
      else
        var (reason, s2) :- ParseByte(s1);
        var (properties, rest) :- if |s| > 3 then ParseAll(list, s2) else Ok([], s2);
        Ok(Ack(mid, reason, properties), rest)
  }

  /** `handle__pubackcomp`, `handle__pubrec` and `handle__pubrel` as far as they decode. */
  method DecodeAck(protocol: Protocol, list: Command, pubrel: bool, packet: InPacket) returns (rc: Rc, ack: Ack)
    requires packet.Valid() && packet.pos == 0
    modifies packet`pos
    ensures packet.Valid()
    ensures match ParseAck(protocol, list, pubrel, packet.command, old(packet.Rest()))
            case Ok(a, rest) => rc == Success && ack == a && packet.Rest() == rest
            case Fail(e) => rc == e
  {
    hide ParseUint16, ParseAll;
    ack := Ack(0, 0, []);
    if pubrel && protocol != V31 {
      if packet.command % 0x10 != 2 { return Rc.Protocol, ack; }
    }
    var mid, reason, properties := 0, 0, [];
    rc, mid := packet.ReadUint16();
    if rc != Success { return; }
    if mid == 0 { return Rc.Protocol, ack; }
    if protocol == V5 && packet.payload.Length > 2 {
      rc, reason := packet.ReadByte();
      if rc != Success { return; }
      if packet.payload.Length > 3 {
        rc, properties := ReadAll(list, packet);
        if rc != Success { return; }
      }
    }
    ack := Ack(mid, reason, properties);
  }

  /** What was sent is read back: identifier, reason code and properties, as far as the protocol has them. */
  lemma {:induction false} AckRoundTrip(protocol: Protocol, list: Command, pubrel: bool, command: Byte, mid: Word16,
                                        reason: Byte, properties: seq<Property>)
    requires mid != 0 && (pubrel ==> command % 0x10 == 2)
    requires protocol == V5 && properties != [] ==>
               AllReadable(properties) && ListAllowed(list, properties) && LengthAll(properties) < Varint.LIMIT
    ensures ParseAck(protocol, list, pubrel, command, AckBody(protocol, mid, reason, properties)) ==
            Ok(if protocol == V5 then Ack(mid, reason, properties) else Ack(mid, 0, []), [])
  {
    hide ParseUint16, Uint16, ParseAll, AllReadable, ListAllowed, LengthAll, Varint.Encode, Images;
    var section := if protocol == V5 && properties != [] then Section(properties) else [];
    var tail := (if protocol == V5 && (reason != 0 || properties != []) then [reason] else []) + section;
    assert AckBody(protocol, mid, reason, properties) == Uint16(mid) + tail;
    Uint16RoundTrip(mid, tail);
    if protocol == V5 && properties != [] {
      assert tail[0] == reason && tail[1..] == section + [];
      SectionRoundTrip(list, properties, []);
    }
  }

  // ---------- Sending ----------

  /** The packet is written in full and consists of these bytes. */
  ghost predicate Holds(packet: OutPacket, bytes: seq<Byte>)
    reads packet, packet.payload
  {
    packet.Valid() && packet.Room() == 0 && packet.Written() == bytes
  }

  /** Without properties an acknowledgement has two bytes of header and two or three of body. */
  lemma ShortAck(packet: OutPacket, protocol: Protocol, command: Byte, mid: Word16, reason: Byte)
    ensures Complete(packet, command, AckBody(protocol, mid, reason, [])) ==>
            Holds(packet, if protocol == V5 && reason != 0 then [command, 3, mid / 0x100, mid % 0x100, reason]
                          else [command, 2, mid / 0x100, mid % 0x100])
    ensures |AckBody(protocol, mid, reason, [])| < Varint.LIMIT
  {
    var body := AckBody(protocol, mid, reason, []);
    assert Varint.Encode(|body|) == [|body|];
    assert protocol == V5 && reason != 0 ==> body == [mid / 0x100, mid % 0x100, reason];
    assert !(protocol == V5 && reason != 0) ==> body == [mid / 0x100, mid % 0x100];
  }

  const CMD_PUBACK := 0x40
  const CMD_PUBREC := 0x50
  const CMD_PUBREL := 0x60
  const CMD_PUBCOMP := 0x70

  method SendPuback(protocol: Protocol, mid: Word16, reason: Byte) returns (rc: Rc, packet: OutPacket?)
    ensures rc == Success && packet != null && fresh(packet)
    ensures Holds(packet, if protocol == V5 && reason != 0 then [0x40, 3, mid / 0x100, mid % 0x100, reason]
                          else [0x40, 2, mid / 0x100, mid % 0x100])
  {
    hide AckBody, Complete, Holds;
    assert LengthAll([]) == 0;
    rc, packet := CommandWithMid(protocol, CMD_PUBACK, mid, false, reason, []);
    ShortAckSent(protocol, mid, reason);
    ShortAck(packet, protocol, 0x40, mid, reason);
  }

  lemma ShortAckSent(protocol: Protocol, mid: Word16, reason: Byte)
    ensures |AckBody(protocol, mid, reason, [])| < Varint.LIMIT
  {}

  method SendPubrec(protocol: Protocol, mid: Word16, reason: Byte) returns (rc: Rc, packet: OutPacket?)
    ensures rc == Success && packet != null && fresh(packet)
    ensures Holds(packet, if protocol == V5 && reason != 0 then [0x50, 3, mid / 0x100, mid % 0x100, reason]
                          else [0x50, 2, mid / 0x100, mid % 0x100])
  {
    hide AckBody, Complete, Holds;
    assert LengthAll([]) == 0;
    rc, packet := CommandWithMid(protocol, CMD_PUBREC, mid, false, reason, []);
    ShortAckSent(protocol, mid, reason);
    ShortAck(packet, protocol, 0x50, mid, reason);
  }

  method SendPubrel(protocol: Protocol, mid: Word16) returns (rc: Rc, packet: OutPacket?)
    ensures rc == Success && packet != null && fresh(packet)
    ensures Holds(packet, [0x62, 2, mid / 0x100, mid % 0x100])
  {
    hide AckBody, Complete, Holds;
    assert LengthAll([]) == 0;
    rc, packet := CommandWithMid(protocol, CMD_PUBREL + 2, mid, false, 0, []);
    ShortAckSent(protocol, mid, 0);
    ShortAck(packet, protocol, 0x62, mid, 0);
  }

  method SendPubcomp(protocol: Protocol, mid: Word16) returns (rc: Rc, packet: OutPacket?)
    ensures rc == Success && packet != null && fresh(packet)
    ensures Holds(packet, [0x70, 2, mid / 0x100, mid % 0x100])
  {
    hide AckBody, Complete, Holds;
    assert LengthAll([]) == 0;
    rc, packet := CommandWithMid(protocol, CMD_PUBCOMP, mid, false, 0, []);
    ShortAckSent(protocol, mid, 0);
    ShortAck(packet, protocol, 0x70, mid, 0);
  }
}
