/** Reading, checking, measuring and writing property lists at a packet's cursor
    (`property_mosq.c`). Each method is proved to do what the parsers, images and predicates of
    `Properties` say of the list; that those fit together is proved there. */
module PropertyIO {
  import opened Basics
  import opened Wire
  import opened Packets
  import opened Properties
  import Varint

  /** `property__read`; `left` is the property length that remains. */
  method ReadProperty(packet: InPacket, len: int) returns (rc: Rc, left: int, property: Property)
    requires packet.Valid()
    modifies packet`pos
    ensures packet.Valid()
    ensures match ParseProperty(old(packet.Rest()))
            case Ok(pd, rest) => rc == Success && property == pd.0 && left == len - pd.1 && packet.Rest() == rest
            case Fail(e) => rc == e
  {
    hide Uint16, Uint32, Varint.Decode, Varint.Encode, ParseUint16, ParseUint32, ParseBlock, ParseString, AfterBlock;
    left := len;
    property := RawProperty.Property(PAYLOAD_FORMAT_INDICATOR, Int8(0));
    var id, n;
    rc, id, n := packet.ReadVarint();
    if rc != Success { return; }
    left := left - 1;
    ghost var s1 := packet.Rest();
    IdTakesOneByte(old(packet.Rest()), id, n);
    match KindOf(id) {
      case KByte =>
        var byte;
        rc, byte := packet.ReadByte();
        if rc != Success { return; }
        left := left - 1;
        property := RawProperty.Property(id, Int8(byte));
      case KInt16 =>
        var word;
        rc, word := packet.ReadUint16();
        if rc != Success { return; }
        left := left - 2;
        property := RawProperty.Property(id, Int16(word));
      case KInt32 =>
        var word;
        rc, word := packet.ReadUint32();
        if rc != Success { return; }
        left := left - 4;
        property := RawProperty.Property(id, Int32(word));
      case KVarint =>
        var v, byteCount;
        rc, v, byteCount := packet.ReadVarint();
        if rc != Success { return; }
        left := left - byteCount;
        VarintParsed(s1);
        property := RawProperty.Property(id, VarInt(v));
      case KString =>
        var str;
        rc, str := packet.ReadString();
        if rc != Success { return; }
        left := left - 2 - |str|;
        property := RawProperty.Property(id, Str(str));
      case KBinary =>
        var data;
        rc, data := packet.ReadBinary();
        if rc != Success { return; }
        left := left - 2 - |data|;
        property := RawProperty.Property(id, Bin(data));
      case KPair =>
        var name, value;
        rc, name := packet.ReadString();
        if rc != Success { return; }
        left := left - 2 - |name|;
        rc, value := packet.ReadString();
        if rc != Success { return; }
        left := left - 2 - |value|;
        property := RawProperty.Property(id, Pair(name, value));
      case Unsupported =>
        rc := MalformedPacket;
    }
  }

  /** The reader subtracts 1 for the identifier; the identifiers it knows do take one byte. */
  lemma IdTakesOneByte(s: seq<Byte>, id: nat, n: nat)
    requires Varint.Decode(s) == Some((id, n))
    ensures n <= |s| && ParseVarint(s) == Ok(id, s[n..])
    ensures KindOf(id) != Unsupported ==> n == 1
  {
    Varint.EncodeDecode(s);
    if KindOf(id) != Unsupported { SmallIds(id); }
  }

  lemma VarintParsed(s: seq<Byte>)
    requires Varint.Decode(s).Some?
    ensures var p := Varint.Decode(s).value;
            p.0 < Varint.LIMIT && p.1 <= |s| && ParseVarint(s) == Ok(p.0, s[p.1..])
  {
    Varint.EncodeDecode(s);
  }

  /** The list read so far, put in front of what the rest of the reading yields. */
  function Prepend(ps: seq<Property>, r: Parsed<(seq<Property>, int)>): Parsed<(seq<Property>, int)> {
    if r.Fail? then r else Ok((ps + r.value.0, r.value.1), r.rest)
  }

  lemma {:induction false} PrependStep(s: seq<Byte>, len: int, ps: seq<Property>)
    requires len > 0
    ensures var first := ParseProperty(s);
            Prepend(ps, ParseList(s, len)) ==
            if first.Fail? then Fail(first.rc)
            else Prepend(ps + [first.value.0], ParseList(first.rest, len - first.value.1))
  {
    hide ParseProperty, ParseList;
    ParseListStep(s, len);
    var first := ParseProperty(s);
    if first.Ok? {
      var tail := ParseList(first.rest, len - first.value.1);
      if tail.Ok? {
        assert ps + ([first.value.0] + tail.value.0) == ps + [first.value.0] + tail.value.0;
      }
    }
  }

  lemma ListDone(s: seq<Byte>, len: int, ps: seq<Property>)
    requires len <= 0
    ensures Prepend(ps, ParseList(s, len)) == Ok((ps, len), s)
  {
    assert ps + [] == ps;
  }

  /** `property__read_all`: at every loop head the bytes taken are the declared length less the
      remaining counter, and there are at least two of them for every property read. */
  method ReadAll(command: Command, packet: InPacket) returns (rc: Rc, properties: seq<Property>)
    requires packet.Valid()
    modifies packet`pos
    ensures packet.Valid()
    ensures match ParseAll(command, old(packet.Rest()))
            case Ok(ps, rest) => rc == Success && properties == ps && packet.Rest() == rest
            case Fail(e) => rc == e
  {
    hide ParseProperty, ParseList, Varint.Decode, CheckAll;
    properties := [];
    var proplen, n;
    rc, proplen, n := packet.ReadVarint();
    if rc != Success { return; }
    VarintParsed(old(packet.Rest()));
    ghost var declared, start := proplen, packet.Rest();
    var left: int := proplen;
    PrependNothing(ParseList(start, declared));
    while left > 0
      invariant packet.Valid()
      invariant Prepend(properties, ParseList(packet.Rest(), left)) == ParseList(start, declared)
      invariant |start| - |packet.Rest()| == declared - left >= 2 * |properties|
      decreases left
    {
      var p;
      ghost var s := packet.Rest();
      PrependStep(s, left, properties);
      rc, left, p := ReadProperty(packet, left);
      if rc != Success { return; }
      PropertyUnique(s);
      properties := properties + [p];
    }
    ListDone(packet.Rest(), left, properties);
    rc := CheckAllMethod(command, properties);
  }

  lemma PrependNothing(r: Parsed<(seq<Property>, int)>)
    ensures Prepend([], r) == r
  {
    if r.Ok? { assert [] + r.value.0 == r.value.0; }
  }

  /** `mosquitto_property_check_all`. */
  method CheckAllMethod(command: Command, properties: seq<Property>) returns (rc: Rc)
    ensures rc == CheckAll(command, properties)
  {
    hide ValueInRange, CheckCommand, DuplicateOf;
    var p := 0;
    assert properties[0..] == properties;
    while p < |properties|
      invariant 0 <= p <= |properties|
      invariant CheckAll(command, properties) == CheckAll(command, properties[p..])
    {
      ghost var rest := properties[p..];
      assert rest[0] == properties[p] && rest[1..] == properties[p + 1..];
      if !ValueInRange(properties[p]) { return Protocol; }
      rc := CheckCommand(command, properties[p].id);
      if rc != Success { return rc; }
      var tail := p + 1;
      while tail < |properties|
        invariant p < tail <= |properties|
        invariant forall j :: p < j < tail ==> !DuplicateOf(properties[p], properties[j])
      {
        if DuplicateOf(properties[p], properties[tail]) {
          assert DuplicateOf(rest[0], rest[tail - p]);
          return DuplicateProperty;
        }
        tail := tail + 1;
      }
      assert forall j :: 1 <= j < |rest| ==> rest[j] == properties[p + j];
      p := p + 1;
    }
    return Success;
  }

  /** `property__get_length_all`. */
  method GetLengthAll(properties: seq<Property>) returns (len: nat)
    ensures len == LengthAll(properties)
  {
    hide Length;
    len := 0;
    var p := 0;
    assert properties[0..] == properties;
    while p < |properties|
      invariant 0 <= p <= |properties|
      invariant len + LengthAll(properties[p..]) == LengthAll(properties)
    {
      assert properties[p..][0] == properties[p] && properties[p..][1..] == properties[p + 1..];
      len := len + Length(properties[p]);
      p := p + 1;
    }
  }

  /** `property__write`: fails for an unknown identifier and for a variable byte integer of 2^28
      or more, after the bytes of `Image` were written. */
  method WriteProperty(packet: OutPacket, p: Property) returns (rc: Rc)
    requires packet.Valid() && packet.Room() >= |Image(p)|
    modifies packet`pos, packet.payload
    ensures packet.Valid() && packet.Written() == old(packet.Written()) + Image(p)
    ensures packet.Room() == old(packet.Room()) - |Image(p)|
    ensures rc == WriteCode(p)
  {
    hide Varint.Encode, BodyImage;
    ghost var before := packet.Written();
    rc := packet.WriteVarint(p.id);
    if KindOf(p.id) != Unsupported { SmallIds(p.id); }
    Association(before, Varint.Encode(p.id), if KindOf(p.id) == Unsupported then [] else BodyImage(p.body));
    if rc != Success { return rc; }
    if KindOf(p.id) == Unsupported { return Inval; }
    rc := WriteBody(packet, KindOf(p.id), p.body);
  }

  lemma Association(a: seq<Byte>, b: seq<Byte>, c: seq<Byte>)
    ensures a + b + c == a + (b + c)
    ensures a + [] == a
  {}

  method WriteBody(packet: OutPacket, kind: Kind, body: Body) returns (rc: Rc)
    requires kind != Unsupported && BodyMatches(kind, body)
    requires packet.Valid() && packet.Room() >= |BodyImage(body)|
    modifies packet`pos, packet.payload
    ensures packet.Valid() && packet.Written() == old(packet.Written()) + BodyImage(body)
    ensures packet.Room() == old(packet.Room()) - |BodyImage(body)|
    ensures rc == if body.VarInt? && body.varint >= Varint.LIMIT then Protocol else Success
  {
    hide Varint.Encode, Uint16, Uint32;
    ghost var before := packet.Written();
    rc := Success;
    match kind {
      case KByte => packet.WriteByte(body.i8);
      case KInt16 => packet.WriteUint16(body.i16);
      case KInt32 => packet.WriteUint32(body.i32);
      case KVarint => rc := packet.WriteVarint(body.varint);
      case KString => packet.WriteString(body.s);
      case KBinary =>
        packet.WriteUint16(|body.bin|);
        packet.WriteBytes(body.bin);
        Association(before, Uint16(|body.bin|), body.bin);
      case KPair =>
        packet.WriteString(body.name);
        packet.WriteString(body.value);
        Association(before, Block(body.name), Block(body.value));
    }
  }

  /** The bytes of a property section, with or without its length. */
  function SectionImage(properties: seq<Property>, writeLen: bool): seq<Byte> {
    if writeLen then Section(properties) else Images(properties)
  }

  /** The code with which writing a property ends. */
  function WriteCode(p: Property): Rc {
    if Writable(p) then Success
    else if KindOf(p.id) == Unsupported && p.id < Varint.LIMIT then Inval
    else Protocol
  }

  /** The bytes of the properties up to the first one that cannot be written, and the code it ends with. */
  function ImagesUpTo(ps: seq<Property>): (seq<Byte>, Rc) {
    if ps == [] then ([], Success)
    else if !Writable(ps[0]) then (Image(ps[0]), WriteCode(ps[0]))
    else
      var r := ImagesUpTo(ps[1..]);
      (Image(ps[0]) + r.0, r.1)
  }

  /** Writing a list succeeds exactly if all its properties can be written, and then writes them all. */
  lemma {:induction false} WholeListIff(ps: seq<Property>)
    ensures ImagesUpTo(ps).1 == Success <==> AllWritable(ps)
    ensures AllWritable(ps) ==> ImagesUpTo(ps).0 == Images(ps)
    ensures |ImagesUpTo(ps).0| <= |Images(ps)|
  {
    hide Image, Writable;
    if ps != [] {
      WholeListIff(ps[1..]);
      assert AllWritable(ps) <==> Writable(ps[0]) && AllWritable(ps[1..]) by {
        assert forall i :: 0 < i < |ps| ==> ps[i] == ps[1..][i - 1];
        assert forall i :: 0 <= i < |ps| - 1 ==> ps[1..][i] == ps[i + 1];
      }
    }
  }

  /** What `property__write_all` writes, and its code: a length of 2^28 or more stops it. */
  function WriteAllOutcome(properties: seq<Property>, writeLen: bool): (seq<Byte>, Rc) {
    if writeLen && LengthAll(properties) >= Varint.LIMIT then (Varint.Encode(LengthAll(properties)), Protocol)
    else ((if writeLen then Varint.Encode(LengthAll(properties)) else []) + ImagesUpTo(properties).0, ImagesUpTo(properties).1)
  }

  lemma WholeSection(properties: seq<Property>, writeLen: bool)
    requires AllWritable(properties) && (writeLen ==> LengthAll(properties) < Varint.LIMIT)
    ensures WriteAllOutcome(properties, writeLen) == (SectionImage(properties, writeLen), Success)
  {
    hide Varint.Encode, LengthAll, AllWritable;
    WholeListIff(properties);
    assert [] + Images(properties) == Images(properties);
  }

  /** `property__write_all` of any list: it stops at the first property that cannot be written. */
  method WriteAll(packet: OutPacket, properties: seq<Property>, writeLen: bool) returns (rc: Rc)
    requires LengthAll(properties) < 0x8000_0000
    requires packet.Valid() && packet.Room() >= |SectionImage(properties, writeLen)|
    modifies packet`pos, packet.payload
    ensures var w := WriteAllOutcome(properties, writeLen);
            rc == w.1 && packet.Valid() && packet.Written() == old(packet.Written()) + w.0 &&
            packet.Room() == old(packet.Room()) - |w.0|
    ensures AllWritable(properties) && (writeLen ==> LengthAll(properties) < Varint.LIMIT) ==>
              rc == Success && packet.Written() == old(packet.Written()) + SectionImage(properties, writeLen) &&
              packet.Room() == old(packet.Room()) - |SectionImage(properties, writeLen)|
  {
    hide Varint.Encode, Image, Length, Writable, LengthAll, AllWritable, ImagesUpTo;
    if AllWritable(properties) && (writeLen ==> LengthAll(properties) < Varint.LIMIT) {
      WholeSection(properties, writeLen);
    }
    ghost var before := packet.Written();
    assert before + [] == before;
    if writeLen {
      var len := GetLengthAll(properties);
      rc := packet.WriteVarint(len);
      if rc != Success { return; }
    }
    ghost var head := packet.Written();
    ghost var w := ImagesUpTo(properties);
    Association(before, if writeLen then Varint.Encode(LengthAll(properties)) else [], w.0);
    rc := WriteEach(packet, properties);
  }

  /** The loop of `property__write_all`. */
  method WriteEach(packet: OutPacket, properties: seq<Property>) returns (rc: Rc)
    requires packet.Valid() && packet.Room() >= |Images(properties)|
    modifies packet`pos, packet.payload
    ensures rc == ImagesUpTo(properties).1 && packet.Valid()
    ensures packet.Written() == old(packet.Written()) + ImagesUpTo(properties).0
    ensures packet.Room() == old(packet.Room()) - |ImagesUpTo(properties).0|
  {
    hide Varint.Encode, Image, Length, Writable, LengthAll;
    ghost var goal := ImagesUpTo(properties);
    var p := 0;
    assert properties[0..] == properties;
    while p < |properties|
      invariant 0 <= p <= |properties| && packet.Valid()
      invariant packet.Room() >= |Images(properties[p..])|
      invariant goal.1 == ImagesUpTo(properties[p..]).1
      invariant packet.Written() + ImagesUpTo(properties[p..]).0 == old(packet.Written()) + goal.0
      invariant packet.Room() - |ImagesUpTo(properties[p..]).0| == old(packet.Room()) - |goal.0|
    {
      ghost var written := packet.Written();
      assert properties[p..][0] == properties[p] && properties[p..][1..] == properties[p + 1..];
      rc := WriteProperty(packet, properties[p]);
      if rc != Success { return; }
      Association(written, Image(properties[p]), ImagesUpTo(properties[p + 1..]).0);
      p := p + 1;
    }
    assert packet.Written() + [] == packet.Written();
    return Success;
  }
}
