/** The elementary data types of the wire (section 1.5 of MQTT 5.0), read and written. */
module Wire {
  import opened Basics
  import Utf8
  import Varint

  /** A reader either takes a value off the front of the bytes or fails with a code. */
  datatype Parsed<+T> = Ok(value: T, rest: seq<Byte>) | Fail(rc: ErrorCode) {
    predicate IsFailure() { Fail? }
    function PropagateFailure<U>(): Parsed<U> requires Fail? { Fail(rc) }
    function Extract(): (T, seq<Byte>) requires Ok? { (value, rest) }
  }

  // ---------- Writers ----------

  function Uint16(w: Word16): (s: seq<Byte>)
    ensures |s| == 2
  {
    [w / 0x100, w % 0x100]
  }

  function Uint32(w: Word32): (s: seq<Byte>)
    ensures |s| == 4
  {
    [w / 0x100_0000, w / 0x1_0000 % 0x100, w / 0x100 % 0x100, w % 0x100]
  }

  /** Strings and binary data carry a two-byte length. */
  type Data = s: seq<Byte> | |s| < 0x1_0000

  function Block(data: Data): (s: seq<Byte>)
    ensures |s| == 2 + |data|
  {
    Uint16(|data|) + data
  }

  // ---------- Readers ----------

  function ParseByte(s: seq<Byte>): Parsed<Byte> {
    if |s| < 1 then Fail(Protocol) else Ok(s[0], s[1..])
  }

  function ParseUint16(s: seq<Byte>): Parsed<Word16> {
    if |s| < 2 then Fail(Protocol) else Ok(s[0] as int * 0x100 + s[1], s[2..])
  }

  function ParseUint32(s: seq<Byte>): Parsed<Word32> {
    if |s| < 4 then Fail(Protocol)
    else Ok(((s[0] as int * 0x100 + s[1]) * 0x100 + s[2]) * 0x100 + s[3], s[4..])
  }

  function ParseVarint(s: seq<Byte>): (r: Parsed<nat>)
    ensures r.Ok? ==> r.value < Varint.LIMIT && |r.rest| < |s|
  {
    match Varint.Decode(s)
    case None => Fail(Protocol)
    case Some(p) => Varint.EncodeDecode(s); Ok(p.0, s[p.1..])
  }

  function ParseBlock(s: seq<Byte>): Parsed<Data> {
    var (len, rest) :- ParseUint16(s);
    if len > |rest| then Fail(Protocol) else Ok(rest[..len], rest[len..])
  }

  /** A string is a block of valid UTF-8. */
  function ParseString(s: seq<Byte>): Parsed<Data> {
    var (data, rest) :- ParseBlock(s);
    if Utf8.Accepts(data) then Ok(data, rest) else Fail(MalformedUtf8)
  }

  /** Where the cursor stands when a block or a string could not be read. */
  function AfterBlock(s: seq<Byte>): seq<Byte> {
    if |s| < 2 then s
    else
      var len := s[0] as int * 0x100 + s[1];
      if len > |s| - 2 then s[2..] else s[2 + len..]
  }

  // ---------- Readers undo writers, and writers undo readers ----------

  /** Sections 1.5.2 and 1.5.3: the most significant byte comes first. */
  lemma BigEndian(v: Word16, w: Word32)
    ensures Uint16(v)[0] as int * 0x100 + Uint16(v)[1] == v
    ensures Uint32(w)[0] as int * 0x100_0000 + Uint32(w)[1] as int * 0x1_0000 + Uint32(w)[2] as int * 0x100 + Uint32(w)[3] == w
  {
    assert w / 0x100 == w / 0x1_0000 * 0x100 + w / 0x100 % 0x100;
    assert w / 0x1_0000 == w / 0x100_0000 * 0x100 + w / 0x1_0000 % 0x100;
  }

  lemma Uint16RoundTrip(w: Word16, rest: seq<Byte>)
    ensures ParseUint16(Uint16(w) + rest) == Ok(w, rest)
  {
    var s := Uint16(w) + rest;
    assert s[0] == w / 0x100 && s[1] == w % 0x100 && s[2..] == rest;
  }

  lemma Uint16Unique(s: seq<Byte>)
    requires ParseUint16(s).Ok?
    ensures s == Uint16(ParseUint16(s).value) + ParseUint16(s).rest
  {
    assert s == s[..2] + s[2..] && s[..2] == [s[0], s[1]];
  }

  lemma Uint32RoundTrip(w: Word32, rest: seq<Byte>)
    ensures ParseUint32(Uint32(w) + rest) == Ok(w, rest)
  {
    var s := Uint32(w) + rest;
    assert s[0] == w / 0x100_0000 && s[1] == w / 0x1_0000 % 0x100 && s[2] == w / 0x100 % 0x100 && s[3] == w % 0x100;
    assert s[4..] == rest;
    assert w / 0x100 / 0x100 == w / 0x1_0000 && w / 0x1_0000 / 0x100 == w / 0x100_0000;
  }

  lemma Uint32Unique(s: seq<Byte>)
    requires ParseUint32(s).Ok?
    ensures s == Uint32(ParseUint32(s).value) + ParseUint32(s).rest
  {
    var w := ParseUint32(s).value;
    var a: int, b: int, c: int, d: int := s[0], s[1], s[2], s[3];
    assert w / 0x100 == (a * 0x100 + b) * 0x100 + c && w / 0x1_0000 == a * 0x100 + b && w / 0x100_0000 == a;
    assert s == s[..4] + s[4..] && s[..4] == [s[0], s[1], s[2], s[3]];
    assert Uint32(w) == s[..4];
  }

  lemma VarintRoundTrip(v: nat, rest: seq<Byte>)
    requires v < Varint.LIMIT
    ensures ParseVarint(Varint.Encode(v) + rest) == Ok(v, rest)
  {
    Varint.DecodeEncode(v, rest);
    assert (Varint.Encode(v) + rest)[|Varint.Encode(v)|..] == rest;
  }

  lemma VarintUnique(s: seq<Byte>)
    requires ParseVarint(s).Ok?
    ensures s == Varint.Encode(ParseVarint(s).value) + ParseVarint(s).rest
  {
    Varint.EncodeDecode(s);
    var p := Varint.Decode(s).value;
    assert s == s[..p.1] + s[p.1..];
  }

  /** Sections 1.5.4 and 1.5.6: two bytes of length, and then the data. */
  lemma LengthFirst(data: Data)
    ensures var b := Block(data); b[0] as int * 0x100 + b[1] == |data| && b[2..] == data
  {
    BigEndian(|data|, 0);
  }

  lemma BlockRoundTrip(data: Data, rest: seq<Byte>)
    ensures ParseBlock(Block(data) + rest) == Ok(data, rest)
  {
    assert Block(data) + rest == Uint16(|data|) + (data + rest);
    Uint16RoundTrip(|data|, data + rest);
    assert (data + rest)[..|data|] == data && (data + rest)[|data|..] == rest;
  }

  lemma BlockUnique(s: seq<Byte>)
    requires ParseBlock(s).Ok?
    ensures s == Block(ParseBlock(s).value) + ParseBlock(s).rest
  {
    Uint16Unique(s);
    var tail := ParseUint16(s).rest;
    var len := ParseUint16(s).value;
    assert tail == tail[..len] + tail[len..];
  }
}
