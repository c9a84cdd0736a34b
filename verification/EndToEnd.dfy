/** From messages to messages: PUBLISH packets sent one after the other and cut into reads. */
module EndToEnd {
  import opened Basics
  import opened Publish
  import Framing
  import Wire
  import Varint

  /** The bytes of a message on the wire: what `send__real_publish` hands to the socket. */
  function OnWire(v5: bool, m: Message): seq<Byte>
    requires m.qos <= 2
  {
    [CommandByte(m.dup, m.qos, m.retain)] + Varint.Encode(|BodyOf(v5, m)|) + BodyOf(v5, m)
  }

  predicate Sendable(v5: bool, m: Message) {
    InRange(v5, m) && |BodyOf(v5, m)| < Varint.LIMIT
  }

  predicate AllSendable(v5: bool, ms: seq<Message>) {
    forall i :: 0 <= i < |ms| ==> Sendable(v5, ms[i])
  }

  function AllOnWire(v5: bool, ms: seq<Message>): seq<Byte>
    requires AllSendable(v5, ms)
  {
    if ms == [] then [] else OnWire(v5, ms[0]) + AllOnWire(v5, ms[1..])
  }

  function PacketOf(v5: bool, m: Message): Framing.Packet
    requires m.qos <= 2
  {
    Framing.Packet(CommandByte(m.dup, m.qos, m.retain), BodyOf(v5, m))
  }

  /** The framing reads a length that was written as a variable byte integer. */
  lemma {:induction false} WrittenLength(v: nat, rest: seq<Byte>, count: nat, mult: nat, length: nat)
    requires count + |Varint.Encode(v)| <= Framing.MAX_LENGTH_BYTES
    ensures Framing.ParseLength(Varint.Encode(v) + rest, count, mult, length)
            == Framing.Known(length + v * mult, count + |Varint.Encode(v)|)
    decreases v
  {
    var s := Varint.Encode(v) + rest;
    if v < 0x80 {
      assert s[0] == v;
    } else {
      assert s[0] == v % 0x80 + 0x80 && s[1..] == Varint.Encode(v / 0x80) + rest;
      assert s[0] % 0x80 == v % 0x80;
      WrittenLength(v / 0x80, rest, count + 1, mult * 0x80, length + v % 0x80 * mult);
      SplitProduct(v, mult);
    }
  }

  lemma SplitProduct(v: nat, mult: nat)
    ensures v % 0x80 * mult + v / 0x80 * (mult * 0x80) == v * mult
  {
    var q, r := v / 0x80, v % 0x80;
    assert v == q * 0x80 + r;
    assert q * (mult * 0x80) == (q * 0x80) * mult;
    assert (q * 0x80 + r) * mult == (q * 0x80) * mult + r * mult;
  }

  /** A message at the start of a stream is its first packet. */
  lemma {:induction false} FirstIsPacket(v5: bool, m: Message, rest: seq<Byte>)
    requires Sendable(v5, m) && m.qos <= 2
    ensures var s := OnWire(v5, m) + rest;
            var p := PacketOf(v5, m);
            Framing.ParseLength(s[1..], 0, 1, 0).Known? && Framing.FirstEnd(s) == |OnWire(v5, m)| &&
            Framing.FirstOf(s) == p && s[Framing.FirstEnd(s)..] == rest && s[0] == p.command != 0
  {
    hide BodyOf, Varint.Encode, Framing.ParseLength, InRange;
    QosInRange(v5, m);
    var body := BodyOf(v5, m);
    var length := Varint.Encode(|body|);
    var s := OnWire(v5, m) + rest;
    assert s[1..] == length + (body + rest);
    SmallBytes(|body|);
    WrittenLength(|body|, body + rest, 0, 1, 0);
    assert s[1 + |length|..1 + |length| + |body|] == body;
  }

  lemma QosInRange(v5: bool, m: Message)
    requires InRange(v5, m)
    ensures m.qos <= 2
  {}

  /** The stream of any number of messages parses to their packets, none of which begins with zero. */
  lemma {:induction false} StreamOfMessages(v5: bool, ms: seq<Message>)
    requires AllSendable(v5, ms)
    ensures var s := AllOnWire(v5, ms);
            var r := Framing.ParseStream(s);
            !r.malformed && |r.packets| == |ms| && !Framing.ZeroCommand(s) &&
            forall i :: 0 <= i < |ms| ==> Sendable(v5, ms[i]) && r.packets[i] == PacketOf(v5, ms[i])
    decreases |ms|
  {
    hide OnWire, InRange, BodyOf, PacketOf, Framing.ParseLength, Framing.FirstOf, Framing.FirstEnd;
    if ms != [] {
      var m, t := ms[0], ms[1..];
      assert AllSendable(v5, t) by { assert forall i :: 0 <= i < |t| ==> t[i] == ms[i + 1]; }
      StreamOfMessages(v5, t);
      QosInRange(v5, m);
      FirstIsPacket(v5, m, AllOnWire(v5, t));
      var s := AllOnWire(v5, ms);
      Framing.FirstPacketParsed(s);
    }
  }

  /** However the bytes of the messages are cut into reads, the reader dispatches one packet for each,
      and decoding it gives the message back. */
  lemma {:induction false} MessagesArrive(v5: bool, receiveQuota: nat, ms: seq<Message>, chunks: seq<seq<Byte>>)
    requires AllSendable(v5, ms) && (v5 ==> receiveQuota > 0)
    ensures var packets := Framing.Run(Framing.START, chunks).packets;
            Framing.Concat(chunks) == AllOnWire(v5, ms) ==>
            |packets| == |ms| &&
            forall i :: 0 <= i < |ms| ==>
              packets[i].command / 16 == 3 &&
              ParseMessage(v5, receiveQuota, packets[i].command, packets[i].body) == Wire.Ok(ms[i], [])
  {
    hide ParseMessage, BodyOf, InRange, CommandByte, Framing.Run, Framing.ParseStream, Framing.ZeroCommand, AllOnWire;
    if Framing.Concat(chunks) == AllOnWire(v5, ms) {
      StreamOfMessages(v5, ms);
      Framing.CutsDispatchTheStream(chunks);
      forall i | 0 <= i < |ms|
        ensures var p := Framing.Run(Framing.START, chunks).packets[i];
                p.command / 16 == 3 &&
                ParseMessage(v5, receiveQuota, p.command, p.body) == Wire.Ok(ms[i], [])
      {
        QosInRange(v5, ms[i]);
        FirstByte(ms[i].dup, ms[i].qos, ms[i].retain);
        PublishRoundTrip(v5, receiveQuota, ms[i]);
      }
    }
  }
}
