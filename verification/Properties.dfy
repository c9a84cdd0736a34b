/** MQTT 5 properties (section 2.2.2): encoding, length, reader and list checks. */
module Properties {
  import opened Basics
  import opened Wire
  import Utf8
  import Varint

  // ---------- Identifiers ----------

  const PAYLOAD_FORMAT_INDICATOR := 1
  const MESSAGE_EXPIRY_INTERVAL := 2
  const CONTENT_TYPE := 3
  const RESPONSE_TOPIC := 8
  const CORRELATION_DATA := 9
  const SUBSCRIPTION_IDENTIFIER := 11
  const SESSION_EXPIRY_INTERVAL := 17
  const ASSIGNED_CLIENT_IDENTIFIER := 18
  const SERVER_KEEP_ALIVE := 19
  const AUTHENTICATION_METHOD := 21
  const AUTHENTICATION_DATA := 22
  const REQUEST_PROBLEM_INFORMATION := 23
  const WILL_DELAY_INTERVAL := 24
  const REQUEST_RESPONSE_INFORMATION := 25
  const RESPONSE_INFORMATION := 26
  const SERVER_REFERENCE := 28
  const REASON_STRING := 31
  const RECEIVE_MAXIMUM := 33
  const TOPIC_ALIAS_MAXIMUM := 34
  const TOPIC_ALIAS := 35
  const MAXIMUM_QOS := 36
  const RETAIN_AVAILABLE := 37
  const USER_PROPERTY := 38
  const MAXIMUM_PACKET_SIZE := 39
  const WILDCARD_SUB_AVAILABLE := 40
  const SUBSCRIPTION_ID_AVAILABLE := 41
  const SHARED_SUB_AVAILABLE := 42

  datatype Command =
    | Connect | Connack | Publish | Puback | Pubrec | Pubrel | Pubcomp | Subscribe | Suback
    | Unsubscribe | Unsuback | Disconnect | Auth | Will

  datatype Kind = KByte | KInt16 | KInt32 | KVarint | KString | KBinary | KPair | Unsupported

  function KindOf(id: int): Kind {
    if id in {PAYLOAD_FORMAT_INDICATOR, REQUEST_PROBLEM_INFORMATION, REQUEST_RESPONSE_INFORMATION, MAXIMUM_QOS,
              RETAIN_AVAILABLE, WILDCARD_SUB_AVAILABLE, SUBSCRIPTION_ID_AVAILABLE, SHARED_SUB_AVAILABLE} then KByte
    else if id in {SERVER_KEEP_ALIVE, RECEIVE_MAXIMUM, TOPIC_ALIAS_MAXIMUM, TOPIC_ALIAS} then KInt16
    else if id in {MESSAGE_EXPIRY_INTERVAL, SESSION_EXPIRY_INTERVAL, WILL_DELAY_INTERVAL, MAXIMUM_PACKET_SIZE} then KInt32
    else if id == SUBSCRIPTION_IDENTIFIER then KVarint
    else if id in {CONTENT_TYPE, RESPONSE_TOPIC, ASSIGNED_CLIENT_IDENTIFIER, AUTHENTICATION_METHOD,
                   RESPONSE_INFORMATION, SERVER_REFERENCE, REASON_STRING} then KString
    else if id in {AUTHENTICATION_DATA, CORRELATION_DATA} then KBinary
    else if id == USER_PROPERTY then KPair
    else Unsupported
  }

  // ---------- Properties ----------

  /** The member of the value union that is in use, with the name of a string pair. */
  datatype Body =
    | Int8(i8: Byte) | Int16(i16: Word16) | Int32(i32: Word32) | VarInt(varint: Word32)
    | Str(s: Data) | Bin(bin: Data) | Pair(name: Data, value: Data)

  datatype RawProperty = Property(id: int, body: Body)

  predicate BodyMatches(kind: Kind, body: Body) {
    match kind
    case KByte => body.Int8?
    case KInt16 => body.Int16?
    case KInt32 => body.Int32?
    case KVarint => body.VarInt? && body.varint < 0x8000_0000
    case KString => body.Str?
    case KBinary => body.Bin?
    case KPair => body.Pair?
    case Unsupported => true
  }

  /** The identifier is a non-negative `int32_t` and selects the member in use. */
  predicate Typed(p: RawProperty) {
    0 <= p.id < 0x8000_0000 && BodyMatches(KindOf(p.id), p.body)
  }

  type Property = p: RawProperty | Typed(p) witness RawProperty.Property(1, Int8(0))

  /** `property__get_length`. */
  function Length(p: Property): nat {
    match KindOf(p.id)
    case KByte => 2
    case KInt16 => 3
    case KInt32 => 5
    case KVarint =>
      if p.body.varint < 0x80 then 2
      else if p.body.varint < 0x4000 then 3
      else if p.body.varint < 0x20_0000 then 4
      else if p.body.varint < 0x1000_0000 then 5
      else 0
    case KBinary => 3 + |p.body.bin|
    case KString => 3 + |p.body.s|
    case KPair => 5 + |p.body.value| + |p.body.name|
    case Unsupported => 0
  }

  function BodyImage(body: Body): seq<Byte> {
    match body
    case Int8(i8) => [i8]
    case Int16(i16) => Uint16(i16)
    case Int32(i32) => Uint32(i32)
    case VarInt(v) => Varint.Encode(v)
    case Str(str) => Block(str)
    case Bin(bin) => Block(bin)
    case Pair(name, value) => Block(name) + Block(value)
  }

  /** The bytes `property__write` puts into a packet; for an identifier it does not know it has
      written that much when it fails. */
  function Image(p: Property): seq<Byte> {
    Varint.Encode(p.id) + if KindOf(p.id) == Unsupported then [] else BodyImage(p.body)
  }

  /** `property__write` succeeds. */
  predicate Writable(p: Property) {
    KindOf(p.id) != Unsupported && (p.body.VarInt? ==> p.body.varint < Varint.LIMIT)
  }

  predicate ValidStrings(body: Body) {
    match body
    case Str(str) => Utf8.Accepts(str)
    case Pair(name, value) => Utf8.Accepts(name) && Utf8.Accepts(value)
    case _ => true
  }

  /** Writable, and every string in it is valid UTF-8. */
  predicate Readable(p: Property) {
    Writable(p) && ValidStrings(p.body)
  }

  lemma SmallIds(id: int)
    requires KindOf(id) != Unsupported
    ensures 0 < id < 0x80 && Varint.Encode(id) == [id]
  {}

  /** The precomputed length is the number of bytes written exactly for the properties whose
      writing succeeds; for the others it is 0 although bytes are written. */
  lemma LengthIsExact(p: Property)
    ensures Length(p) == |Image(p)| <==> Writable(p)
    ensures !Writable(p) ==> Length(p) == 0
  {
    if KindOf(p.id) != Unsupported {
      SmallIds(p.id);
      if p.body.VarInt? {
        Varint.BytesIsLength(p.body.varint);
      }
    }
  }

  // ---------- One property ----------

  /** The value of a property, and what the reader subtracts from the property length for it. */
  function ParseBody(kind: Kind, s: seq<Byte>): (r: Parsed<(Body, nat)>)
    ensures r.Ok? ==> kind != Unsupported && BodyMatches(kind, r.value.0)
  {
    match kind
    case KByte => var (byte, rest) :- ParseByte(s); Ok((Int8(byte), 1), rest)
    case KInt16 => var (word, rest) :- ParseUint16(s); Ok((Int16(word), 2), rest)
    case KInt32 => var (word, rest) :- ParseUint32(s); Ok((Int32(word), 4), rest)
    case KVarint => var (v, rest) :- ParseVarint(s); Ok((VarInt(v), |s| - |rest|), rest)
    case KString => var (str, rest) :- ParseString(s); Ok((Str(str), 2 + |str|), rest)
    case KBinary => var (data, rest) :- ParseBlock(s); Ok((Bin(data), 2 + |data|), rest)
    case KPair =>
      var (name, s2) :- ParseString(s);
      var (value, rest) :- ParseString(s2);
      Ok((Pair(name, value), 2 + |name| + 2 + |value|), rest)
    case Unsupported => Fail(MalformedPacket)
  }

  /** `property__read`: the property, and what the reader subtracts from the property length. */
  function ParseProperty(s: seq<Byte>): Parsed<(Property, nat)> {
    var (id, s1) :- ParseVarint(s);
    var (body, rest) :- ParseBody(KindOf(id), s1);
    Ok((RawProperty.Property(id, body.0), 1 + body.1), rest)
  }

  lemma {:induction false} BodyRoundTrip(kind: Kind, body: Body, rest: seq<Byte>)
    requires BodyMatches(kind, body) && kind != Unsupported && ValidStrings(body)
    requires body.VarInt? ==> body.varint < Varint.LIMIT
    ensures ParseBody(kind, BodyImage(body) + rest) == Ok((body, |BodyImage(body)|), rest)
  {
    hide Varint.Encode, Utf8.Accepts, ParseString, ParseBlock, ParseUint16, ParseUint32, ParseVarint, Uint16, Uint32;
    match body
    case Int8(i8) => assert (BodyImage(body) + rest)[1..] == rest;
    case Int16(i16) => Uint16RoundTrip(i16, rest);
    case Int32(i32) => Uint32RoundTrip(i32, rest);
    case VarInt(v) => VarintRoundTrip(v, rest);
    case Str(str) => StringRoundTrip(str, rest);
    case Bin(bin) => BlockRoundTrip(bin, rest);
    case Pair(name, value) =>
      assert BodyImage(body) + rest == Block(name) + (Block(value) + rest);
      StringRoundTrip(name, Block(value) + rest);
      StringRoundTrip(value, rest);
  }

  lemma BodyUnique(kind: Kind, s: seq<Byte>)
    requires ParseBody(kind, s).Ok?
    ensures var r := ParseBody(kind, s);
            ValidStrings(r.value.0) && (r.value.0.VarInt? ==> r.value.0.varint < Varint.LIMIT) &&
            s == BodyImage(r.value.0) + r.rest && r.value.1 == |BodyImage(r.value.0)| >= 1
  {
    hide Varint.Encode, Utf8.Accepts, ParseString, ParseBlock, ParseUint16, ParseUint32, ParseVarint, Uint16, Uint32;
    match kind
    case KByte => assert s == [s[0]] + s[1..];
    case KInt16 => Uint16Unique(s);
    case KInt32 => Uint32Unique(s);
    case KVarint => VarintUnique(s);
    case KString => StringUnique(s);
    case KBinary => BlockUnique(s);
    case KPair =>
      StringUnique(s);
      StringUnique(ParseString(s).rest);
      var r := ParseBody(kind, s);
      assert s == Block(r.value.0.name) + (Block(r.value.0.value) + r.rest);
  }

  /** The reader undoes the writer, whatever follows. */
  lemma {:induction false} PropertyRoundTrip(p: Property, rest: seq<Byte>)
    requires Readable(p)
    ensures ParseProperty(Image(p) + rest) == Ok((p, |Image(p)|), rest)
  {
    hide Varint.Encode, ParseVarint, ParseBody, ValidStrings, BodyImage;
    SmallIds(p.id);
    assert Image(p) + rest == Varint.Encode(p.id) + (BodyImage(p.body) + rest);
    VarintRoundTrip(p.id, BodyImage(p.body) + rest);
    BodyRoundTrip(KindOf(p.id), p.body, rest);
  }

  /** Whatever is accepted is the image of the property read, and the ledger is exact: the
      property length drops by the number of bytes taken, which is at least two. */
  lemma {:induction false} PropertyUnique(s: seq<Byte>)
    requires ParseProperty(s).Ok?
    ensures var r := ParseProperty(s);
            Readable(r.value.0) && s == Image(r.value.0) + r.rest && r.value.1 == |Image(r.value.0)| >= 2
  {
    hide Varint.Encode, ParseVarint, ParseBody, ValidStrings, BodyImage;
    var r := ParseProperty(s);
    var id, s1 := ParseVarint(s).value, ParseVarint(s).rest;
    VarintUnique(s);
    SmallIds(id);
    BodyUnique(KindOf(id), s1);
    assert s == Varint.Encode(id) + (BodyImage(r.value.0.body) + r.rest) == Image(r.value.0) + r.rest;
  }

  lemma StringRoundTrip(str: Data, rest: seq<Byte>)
    requires Utf8.Accepts(str)
    ensures ParseString(Block(str) + rest) == Ok(str, rest)
  {
    hide ParseBlock, Utf8.Accepts;
    BlockRoundTrip(str, rest);
  }

  lemma StringUnique(s: seq<Byte>)
    requires ParseString(s).Ok?
    ensures var r := ParseString(s); s == Block(r.value) + r.rest && Utf8.Accepts(r.value)
  {
    hide ParseBlock, Utf8.Accepts;
    BlockUnique(s);
  }

  // ---------- Lists ----------

  function Images(ps: seq<Property>): seq<Byte> {
    if ps == [] then [] else Image(ps[0]) + Images(ps[1..])
  }

  /** `property__get_length_all`. */
  function LengthAll(ps: seq<Property>): nat {
    if ps == [] then 0 else Length(ps[0]) + LengthAll(ps[1..])
  }

  predicate AllReadable(ps: seq<Property>) {
    forall i :: 0 <= i < |ps| ==> Readable(ps[i])
  }

  predicate AllWritable(ps: seq<Property>) {
    forall i :: 0 <= i < |ps| ==> Writable(ps[i])
  }

  lemma {:induction false} LengthAllIsExact(ps: seq<Property>)
    ensures LengthAll(ps) <= |Images(ps)|
    ensures LengthAll(ps) == |Images(ps)| <==> AllWritable(ps)
  {
    if ps != [] {
      LengthIsExact(ps[0]);
      LengthAllIsExact(ps[1..]);
      assert AllWritable(ps) <==> Writable(ps[0]) && AllWritable(ps[1..]) by {
        assert forall i :: 0 < i < |ps| ==> ps[i] == ps[1..][i - 1];
        assert forall i :: 0 <= i < |ps| - 1 ==> ps[1..][i] == ps[i + 1];
      }
    }
  }

  lemma {:induction false} ImagesAppend(ps: seq<Property>, qs: seq<Property>)
    ensures Images(ps + qs) == Images(ps) + Images(qs)
    ensures LengthAll(ps + qs) == LengthAll(ps) + LengthAll(qs)
  {
    if ps == [] {
      assert ps + qs == qs;
    } else {
      assert (ps + qs)[1..] == ps[1..] + qs;
      ImagesAppend(ps[1..], qs);
    }
  }

  /** The reading loop of `property__read_all`: it runs while the remaining length is positive,
      so the length that is left at the end may be negative. */
  function ParseList(s: seq<Byte>, len: int): Parsed<(seq<Property>, int)>
    decreases len
  {
    if len <= 0 then Ok(([], len), s)
    else
      var (pd, s1) :- ParseProperty(s);
      PropertyUnique(s);
      var (tail, rest) :- ParseList(s1, len - pd.1);
      Ok(([pd.0] + tail.0, tail.1), rest)
  }

  /** One round of the reading loop. */
  lemma {:induction false} ParseListStep(s: seq<Byte>, len: int)
    requires len > 0
    ensures var first := ParseProperty(s);
            ParseList(s, len) ==
            if first.Fail? then Fail(first.rc)
            else
              var tail := ParseList(first.rest, len - first.value.1);
              if tail.Fail? then Fail(tail.rc) else Ok(([first.value.0] + tail.value.0, tail.value.1), tail.rest)
  {
    hide ParseProperty, Image;
  }

  lemma ImagesCons(p: Property, tail: seq<Property>)
    ensures Images([p] + tail) == Image(p) + Images(tail)
  {
    hide Image;
    assert ([p] + tail)[1..] == tail;
  }

  /** Reading back a written list gives the same list in the same order and uses up the length. */
  lemma {:induction false} ListRoundTrip(ps: seq<Property>, rest: seq<Byte>)
    requires AllReadable(ps)
    ensures ParseList(Images(ps) + rest, |Images(ps)|) == Ok((ps, 0), rest)
  {
    if ps == [] {
      assert Images(ps) + rest == rest;
    } else {
      ListRoundTrip(ps[1..], rest);
      RoundTripCons(ps[0], ps[1..], rest);
      assert ps == [ps[0]] + ps[1..];
    }
  }

  lemma {:induction false} RoundTripCons(p: Property, tail: seq<Property>, rest: seq<Byte>)
    requires Readable(p) && ParseList(Images(tail) + rest, |Images(tail)|) == Ok((tail, 0), rest)
    ensures ParseList(Images([p] + tail) + rest, |Images([p] + tail)|) == Ok(([p] + tail, 0), rest)
  {
    hide *;
    ImagesCons(p, tail);
    var s, s1 := Images([p] + tail) + rest, Images(tail) + rest;
    assert s == Image(p) + s1;
    PropertyRoundTrip(p, s1);
    PropertyUnique(s);
    ParseListStep(s, |Images([p] + tail)|);
  }

  /** The books of a reading: what was taken is the image of the list that was read, and the
      length that is left is the declared length less the bytes taken. */
  ghost predicate Accounted(s: seq<Byte>, len: int, r: Parsed<(seq<Property>, int)>)
    requires r.Ok?
  {
    && AllReadable(r.value.0)
    && s == Images(r.value.0) + r.rest
    && r.value.1 == len - |Images(r.value.0)| <= 0
    && |Images(r.value.0)| >= 2 * |r.value.0|
  }

  /** The books are right on any input. */
  lemma {:induction false} ListLedger(s: seq<Byte>, len: int)
    requires ParseList(s, len).Ok?
    ensures Accounted(s, len, ParseList(s, len))
    decreases len
  {
    hide *;
    if len <= 0 {
      AccountedNil(s, len);
    } else {
      ParseListStep(s, len);
      var first := ParseProperty(s);
      PropertyUnique(s);
      ListLedger(first.rest, len - first.value.1);
      AccountedCons(s, len, first.value.0, ParseList(first.rest, len - first.value.1));
    }
  }

  lemma AccountedNil(s: seq<Byte>, len: int)
    requires len <= 0
    ensures ParseList(s, len).Ok? && Accounted(s, len, ParseList(s, len))
  {
    assert ParseList(s, len) == Ok(([], len), s) && Images([]) + s == s;
  }

  lemma {:induction false} AccountedCons(s: seq<Byte>, len: int, p: Property, tail: Parsed<(seq<Property>, int)>)
    requires tail.Ok? && Readable(p)
    requires ParseProperty(s).Ok? && ParseProperty(s).value == (p, |Image(p)|)
    requires s == Image(p) + ParseProperty(s).rest && |Image(p)| >= 2
    requires Accounted(ParseProperty(s).rest, len - |Image(p)|, tail)
    ensures Accounted(s, len, Ok(([p] + tail.value.0, tail.value.1), tail.rest))
  {
    hide Image, Images, Readable, ParseProperty, KindOf;
    ImagesCons(p, tail.value.0);
    assert Image(p) + (Images(tail.value.0) + tail.rest) == Image(p) + Images(tail.value.0) + tail.rest;
    assert forall i :: 0 < i < |[p] + tail.value.0| ==> ([p] + tail.value.0)[i] == tail.value.0[i - 1];
  }

  /** A list that was read took exactly its declared length if and only if it could have been
      read from the declared section alone; otherwise the last property reaches beyond it. */
  lemma {:induction false} ListExactConsumption(s: seq<Byte>, len: nat)
    requires ParseList(s, len).Ok? && len <= |s|
    ensures ParseList(s, len).value.1 == 0 <==> ParseList(s[..len], len).Ok?
  {
    hide ParseList, Images;
    var r := ParseList(s, len);
    ListLedger(s, len);
    if r.value.1 == 0 {
      assert s[..len] == Images(r.value.0) + [];
      ListRoundTrip(r.value.0, []);
    }
    var t := ParseList(s[..len], len);
    if t.Ok? {
      ListLedger(s[..len], len);
      assert |s[..len]| == |Images(t.value.0)| + |t.rest|;
      assert t.rest == [] && s == Images(t.value.0) + s[len..];
      ListRoundTrip(t.value.0, s[len..]);
    }
  }

  // ---------- Checks on a list ----------

  /** `mosquitto_property_check_command`: the table of section 2.2.2.2. */
  function CheckCommand(command: Command, id: int): Rc {
    if id in {PAYLOAD_FORMAT_INDICATOR, MESSAGE_EXPIRY_INTERVAL, CONTENT_TYPE, RESPONSE_TOPIC, CORRELATION_DATA} then
      if command != Publish && command != Will then Protocol else Success
    else if id == SUBSCRIPTION_IDENTIFIER then
      if command != Publish && command != Subscribe then Protocol else Success
    else if id == SESSION_EXPIRY_INTERVAL then
      if command != Connect && command != Connack && command != Disconnect then Protocol else Success
    else if id in {AUTHENTICATION_METHOD, AUTHENTICATION_DATA} then
      if command != Connect && command != Connack && command != Auth then Protocol else Success
    else if id in {ASSIGNED_CLIENT_IDENTIFIER, SERVER_KEEP_ALIVE, RESPONSE_INFORMATION, MAXIMUM_QOS, RETAIN_AVAILABLE,
                   WILDCARD_SUB_AVAILABLE, SUBSCRIPTION_ID_AVAILABLE, SHARED_SUB_AVAILABLE} then
      if command != Connack then Protocol else Success
    else if id == WILL_DELAY_INTERVAL then
      if command != Will then Protocol else Success
    else if id in {REQUEST_PROBLEM_INFORMATION, REQUEST_RESPONSE_INFORMATION} then
      if command != Connect then Protocol else Success
    else if id == SERVER_REFERENCE then
      if command != Connack && command != Disconnect then Protocol else Success
    else if id == REASON_STRING then
      if command in {Connect, Publish, Subscribe, Unsubscribe} then Protocol else Success
    else if id in {RECEIVE_MAXIMUM, TOPIC_ALIAS_MAXIMUM, MAXIMUM_PACKET_SIZE} then
      if command != Connect && command != Connack then Protocol else Success
    else if id == TOPIC_ALIAS then
      if command != Publish then Protocol else Success
    else if id == USER_PROPERTY then Success
    else Protocol
  }

  predicate ValueInRange(p: Property) {
    if p.id in {REQUEST_PROBLEM_INFORMATION, REQUEST_RESPONSE_INFORMATION, MAXIMUM_QOS, RETAIN_AVAILABLE,
                WILDCARD_SUB_AVAILABLE, SUBSCRIPTION_ID_AVAILABLE, SHARED_SUB_AVAILABLE} then p.body.i8 <= 1
    else if p.id == MAXIMUM_PACKET_SIZE then p.body.i32 != 0
    else if p.id in {RECEIVE_MAXIMUM, TOPIC_ALIAS} then p.body.i16 != 0
    else true
  }

  predicate DuplicateOf(p: Property, q: Property) {
    p.id == q.id && p.id != USER_PROPERTY
  }

  /** What a list must satisfy for a command: every value is in range, every property belongs to
      the command, and no property but the user property occurs twice. */
  predicate ListAllowed(command: Command, ps: seq<Property>) {
    && (forall i :: 0 <= i < |ps| ==> ValueInRange(ps[i]) && CheckCommand(command, ps[i].id) == Success)
    && (forall i, j :: 0 <= i < j < |ps| ==> !DuplicateOf(ps[i], ps[j]))
  }

  /** The code of the first property that offends, in the order of the source's tests. */
  function CheckAll(command: Command, ps: seq<Property>): Rc {
    if ps == [] then Success
    else if !ValueInRange(ps[0]) then Protocol
    else if CheckCommand(command, ps[0].id) != Success then CheckCommand(command, ps[0].id)
    else if exists j :: 1 <= j < |ps| && DuplicateOf(ps[0], ps[j]) then DuplicateProperty
    else CheckAll(command, ps[1..])
  }

  lemma ListAllowedCons(command: Command, p: Property, tail: seq<Property>)
    ensures ListAllowed(command, [p] + tail) <==>
            && ValueInRange(p) && CheckCommand(command, p.id) == Success
            && (forall j :: 0 <= j < |tail| ==> !DuplicateOf(p, tail[j]))
            && ListAllowed(command, tail)
  {
    hide ValueInRange, CheckCommand, DuplicateOf;
    var ps := [p] + tail;
    if ListAllowed(command, ps) {
      assert ps[0] == p;
      forall i | 0 <= i < |tail| ensures ValueInRange(tail[i]) && CheckCommand(command, tail[i].id) == Success {
        assert tail[i] == ps[i + 1];
      }
      forall i, j | 0 <= i < j < |tail| ensures !DuplicateOf(tail[i], tail[j]) {
        assert tail[i] == ps[i + 1] && tail[j] == ps[j + 1];
      }
      forall j | 0 <= j < |tail| ensures !DuplicateOf(p, tail[j]) {
        assert tail[j] == ps[j + 1];
      }
    }
    if ValueInRange(p) && CheckCommand(command, p.id) == Success &&
       (forall j :: 0 <= j < |tail| ==> !DuplicateOf(p, tail[j])) && ListAllowed(command, tail)
    {
      forall i | 0 <= i < |ps| ensures ValueInRange(ps[i]) && CheckCommand(command, ps[i].id) == Success {
        if i > 0 { assert ps[i] == tail[i - 1]; }
      }
      forall i, j | 0 <= i < j < |ps| ensures !DuplicateOf(ps[i], ps[j]) {
        assert ps[j] == tail[j - 1];
        if i > 0 { assert ps[i] == tail[i - 1]; }
      }
    }
  }

  lemma {:induction false} CheckAllIsAllowed(command: Command, ps: seq<Property>)
    ensures CheckAll(command, ps) == Success <==> ListAllowed(command, ps)
  {
    hide ValueInRange, CheckCommand, DuplicateOf, ListAllowed;
    if ps == [] {
      assert ListAllowed(command, ps) by { EmptyAllowed(command); }
    } else {
      var tail := ps[1..];
      CheckAllIsAllowed(command, tail);
      assert ps == [ps[0]] + tail;
      ListAllowedCons(command, ps[0], tail);
      assert forall j :: 1 <= j < |ps| ==> ps[j] == tail[j - 1];
      assert forall j :: 0 <= j < |tail| ==> tail[j] == ps[j + 1];
    }
  }

  lemma EmptyAllowed(command: Command)
    ensures ListAllowed(command, [])
  {}

  /** `property__read_all`. */
  function ParseAll(command: Command, s: seq<Byte>): Parsed<seq<Property>> {
    var (len, s1) :- ParseVarint(s);
    var (list, rest) :- ParseList(s1, len);
    var rc := CheckAll(command, list.0);
    if rc == Success then Ok(list.0, rest) else Fail(rc)
  }

  /** The property section `property__write_all` writes with its length in front. */
  function Section(ps: seq<Property>): seq<Byte> {
    Varint.Encode(LengthAll(ps)) + Images(ps)
  }

  /** Round trip of a whole property section for every list that its command allows. */
  lemma {:induction false} SectionRoundTrip(command: Command, ps: seq<Property>, rest: seq<Byte>)
    requires AllReadable(ps) && ListAllowed(command, ps) && LengthAll(ps) < Varint.LIMIT
    ensures ParseAll(command, Section(ps) + rest) == Ok(ps, rest)
  {
    hide ParseList, CheckAll, ParseVarint, Readable, Writable;
    AllReadableIsWritable(ps);
    LengthAllIsExact(ps);
    assert Section(ps) + rest == Varint.Encode(LengthAll(ps)) + (Images(ps) + rest);
    VarintRoundTrip(LengthAll(ps), Images(ps) + rest);
    ListRoundTrip(ps, rest);
    CheckAllIsAllowed(command, ps);
  }

  lemma AllReadableIsWritable(ps: seq<Property>)
    requires AllReadable(ps)
    ensures AllWritable(ps)
  {}

  /** Every section that is accepted consists of a length and the image of an allowed list; if
      the length is not too small, it is the section that would be written for that list. */
  lemma SectionUnique(command: Command, s: seq<Byte>)
    requires ParseAll(command, s).Ok?
    ensures var r := ParseAll(command, s);
            var len := ParseVarint(s).value;
            AllReadable(r.value) && ListAllowed(command, r.value) &&
            s == Varint.Encode(len) + Images(r.value) + r.rest && len <= LengthAll(r.value) &&
            (len == LengthAll(r.value) ==> s == Section(r.value) + r.rest)
  {
    hide ParseList, CheckAll, ParseVarint, Readable, Writable, Varint.Encode;
    var len, s1 := ParseVarint(s).value, ParseVarint(s).rest;
    VarintUnique(s);
    ListLedger(s1, len);
    var list := ParseList(s1, len);
    CheckAllIsAllowed(command, list.value.0);
    AllReadableIsWritable(list.value.0);
    LengthAllIsExact(list.value.0);
    assert s == Varint.Encode(len) + (Images(list.value.0) + list.rest);
  }

  /** The reader may take more than the declared length: one byte is declared, two are taken. */
  lemma OverrunExists()
    ensures var s := [1, PAYLOAD_FORMAT_INDICATOR, 0];
            ParseAll(Publish, s) == Ok([RawProperty.Property(PAYLOAD_FORMAT_INDICATOR, Int8(0))], []) &&
            ParseList(s[1..], 1).value.1 == -1
  {
    var s: seq<Byte> := [1, PAYLOAD_FORMAT_INDICATOR, 0];
    var p := RawProperty.Property(PAYLOAD_FORMAT_INDICATOR, Int8(0));
    assert s == Varint.Encode(1) + s[1..];
    VarintRoundTrip(1, s[1..]);
    assert s[1..] == Image(p) + [];
    PropertyRoundTrip(p, []);
    assert ParseList([], -1) == Ok(([], -1), []);
    assert [p] + [] == [p];
    assert ParseList(s[1..], 1) == Ok(([p], -1), []);
    assert CheckAll(Publish, [p]) == Success;
  }
}
