/** A packet with its buffer and cursor (`packet_datatypes.c`, `packet__alloc`): the readers of the
    basic types, each proved to read what the parser of `Wire` says of the bytes behind the cursor,
    and the writers, each proved to append the image of what it is given. */
module Packets {
  import opened Basics
  import opened Wire
  import Utf8
  import Varint

  /** A received packet: the variable header and payload, and the read position. */
  class InPacket {
    const command: Byte
    const payload: array<Byte>
    var pos: nat

    constructor (command: Byte, bytes: seq<Byte>)
      ensures Valid() && Rest() == bytes && this.command == command && fresh(payload)
    {
      this.command := command;
      payload := new Byte[|bytes|](i requires 0 <= i < |bytes| => bytes[i]);
      pos := 0;
    }

    ghost predicate Valid()
      reads this
    {
      pos <= payload.Length
    }

    /** The bytes that are still to be read. */
    function Rest(): seq<Byte>
      reads this, payload
      requires Valid()
    {
      payload[pos..]
    }

    method ReadByte() returns (rc: Rc, byte: Byte)
      requires Valid()
      modifies this`pos
      ensures Valid()
      ensures match ParseByte(old(Rest()))
              case Ok(v, rest) => rc == Success && byte == v && Rest() == rest
              case Fail(e) => rc == e
    {
      if pos + 1 > payload.Length { return Protocol, 0; }
      byte := payload[pos];
      pos := pos + 1;
      return Success, byte;
    }

    method ReadBytes(count: nat) returns (rc: Rc, bytes: seq<Byte>)
      requires Valid()
      modifies this`pos
      ensures Valid()
      ensures if count <= |old(Rest())| then rc == Success && bytes == old(Rest())[..count] && Rest() == old(Rest())[count..]
              else rc == Protocol
    {
      if pos + count > payload.Length { return Protocol, []; }
      bytes := payload[pos..pos + count];
      pos := pos + count;
      return Success, bytes;
    }

    method ReadUint16() returns (rc: Rc, word: Word16)
      requires Valid()
      modifies this`pos
      ensures Valid()
      ensures match ParseUint16(old(Rest()))
              case Ok(v, rest) => rc == Success && word == v && Rest() == rest
              case Fail(e) => rc == e && Rest() == old(Rest())
    {
      if pos + 2 > payload.Length { return Protocol, 0; }
      var msb := payload[pos];
      pos := pos + 1;
      var lsb := payload[pos];
      pos := pos + 1;
      return Success, msb as int * 0x100 + lsb;
    }

    method ReadUint32() returns (rc: Rc, word: Word32)
      requires Valid()
      modifies this`pos
      ensures Valid()
      ensures match ParseUint32(old(Rest()))
              case Ok(v, rest) => rc == Success && word == v && Rest() == rest
              case Fail(e) => rc == e
    {
      if pos + 4 > payload.Length { return Protocol, 0; }
      var val: int := 0;
      for i := 0 to 4
        invariant pos == old(pos) + i && Valid()
        invariant i == 0 ==> val == 0
        invariant i == 1 ==> val == payload[old(pos)]
        invariant i == 2 ==> val == payload[old(pos)] as int * 0x100 + payload[old(pos) + 1]
        invariant i == 3 ==> val == (payload[old(pos)] as int * 0x100 + payload[old(pos) + 1]) * 0x100 + payload[old(pos) + 2]
        invariant i == 4 ==> val == ((payload[old(pos)] as int * 0x100 + payload[old(pos) + 1]) * 0x100
                                     + payload[old(pos) + 2]) * 0x100 + payload[old(pos) + 3]
      {
        val := val * 0x100 + payload[pos];
        pos := pos + 1;
      }
      return Success, val;
    }

    /** `packet__read_varint`; `bytes` is the number of bytes taken. */
    method ReadVarint() returns (rc: Rc, word: nat, bytes: nat)
      requires Valid()
      modifies this`pos
      ensures Valid()
      ensures match Varint.Decode(old(Rest()))
              case None => rc == Protocol
              case Some(p) => rc == Success && word == p.0 && bytes == p.1 && p.1 <= |old(Rest())| && Rest() == old(Rest())[p.1..]
    {
      hide Varint.Decode, Varint.Parse, Resumes;
      var remainingMult: nat, lword: nat, lbytes := 1, 0, 0;
      ghost var start := Rest();
      assert start[0..] == start;
      ResumeStart(start);
      for i := 0 to 4
        invariant Valid() && lbytes == i && i <= |start| && Rest() == start[i..]
        invariant Resumes(Varint.Decode(start), Varint.Parse(start[i..], 4 - i, i == 0), lword, remainingMult, i)
      {
        if pos < payload.Length {
          lbytes := lbytes + 1;
          var byte := payload[pos];
          assert byte == start[i] && start[i..][0] == start[i] && start[i..][1..] == start[i + 1..];
          var low: nat := if byte < 0x80 then byte else byte - 0x80;
          ResumeStep(Varint.Decode(start), start[i..], 4 - i, i == 0, lword, remainingMult, i);
          lword := lword + low * remainingMult;
          remainingMult := remainingMult * 0x80;
          pos := pos + 1;
          if byte < 0x80 {
            if lbytes > 1 && byte == 0 {
              return Protocol, 0, 0;
            } else {
              return Success, lword, lbytes;
            }
          }
        } else {
          ResumeEnd(Varint.Decode(start), start[i..], 4 - i, i == 0, lword, remainingMult, i);
          return Protocol, 0, 0;
        }
      }
      ResumeEnd(Varint.Decode(start), start[4..], 0, false, lword, remainingMult, 4);
      return Protocol, 0, 0;
    }

    method ReadBinary() returns (rc: Rc, data: Data)
      requires Valid()
      modifies this`pos
      ensures Valid()
      ensures match ParseBlock(old(Rest()))
              case Ok(v, rest) => rc == Success && data == v && Rest() == rest
              case Fail(e) => rc == e && Rest() == AfterBlock(old(Rest()))
    {
      var slen;
      rc, slen := ReadUint16();
      if rc != Success { return rc, []; }
      if slen == 0 { return Success, []; }
      if pos + slen > payload.Length { return Protocol, []; }
      data := payload[pos..pos + slen];
      pos := pos + slen;
      return Success, data;
    }

    method ReadString() returns (rc: Rc, str: Data)
      requires Valid()
      modifies this`pos
      ensures Valid()
      ensures match ParseString(old(Rest()))
              case Ok(v, rest) => rc == Success && str == v && Rest() == rest
              case Fail(e) => rc == e && Rest() == AfterBlock(old(Rest()))
    {
      rc, str := ReadBinary();
      if rc != Success { return rc, []; }
      if |str| == 0 { return Success, []; }
      // the copy that the reader makes ends in a NUL
      assert (str + [0])[..|str|] == str;
      var valid := Utf8.ValidateUtf8(Some(str + [0]), |str|);
      if valid != Success { return MalformedUtf8, []; }
      return Success, str;
    }
  }

  /** A reading that stands behind `i` bytes worth `acc`: what the rest yields completes it. */
  ghost predicate Resumes(whole: Option<(nat, nat)>, rest: Option<(nat, nat)>, acc: nat, mult: nat, i: nat) {
    match rest
    case None => whole == None
    case Some(p) => whole == Some((acc + p.0 * mult, p.1 + i))
  }

  lemma ResumeStart(s: seq<Byte>)
    ensures Resumes(Varint.Decode(s), Varint.Parse(s, 4, true), 0, 1, 0)
  {}

  lemma ResumeEnd(whole: Option<(nat, nat)>, s: seq<Byte>, k: nat, first: bool, acc: nat, mult: nat, i: nat)
    requires Resumes(whole, Varint.Parse(s, k, first), acc, mult, i) && (k == 0 || s == [])
    ensures whole == None
  {}

  lemma ResumeStep(whole: Option<(nat, nat)>, s: seq<Byte>, k: nat, first: bool, acc: nat, mult: nat, i: nat)
    requires k > 0 && s != []
    requires Resumes(whole, Varint.Parse(s, k, first), acc, mult, i)
    ensures s[0] >= 0x80 ==>
              Resumes(whole, Varint.Parse(s[1..], k - 1, false), acc + (s[0] - 0x80) * mult, mult * 0x80, i + 1)
    ensures s[0] < 0x80 ==> whole == if !first && s[0] == 0 then None else Some((acc + s[0] * mult, i + 1))
  {
    if s[0] >= 0x80 {
      match Varint.Parse(s[1..], k - 1, false)
      case None =>
      case Some(p) =>
        var low: int, v: int := s[0] - 0x80, p.0;
        assert (low + 0x80 * v) * mult == low * mult + v * (mult * 0x80);
    }
  }

  /** A packet under construction. The writers may only be called with room left: that is the
      assertion each of them makes in the source. */
  class OutPacket {
    const command: Byte
    const remainingLength: nat
    const payload: array<Byte>
    var pos: nat

    /** The end of `packet__alloc`: the fixed header is in place. */
    constructor (command: Byte, remainingLength: nat, lengthBytes: seq<Byte>)
      ensures Valid() && fresh(payload)
      ensures this.command == command && this.remainingLength == remainingLength
      ensures payload.Length == remainingLength + 1 + |lengthBytes|
      ensures Written() == [command] + lengthBytes
    {
      this.command := command;
      this.remainingLength := remainingLength;
      var buffer := new Byte[remainingLength + 1 + |lengthBytes|];
      buffer[0] := command;
      for i := 0 to |lengthBytes|
        invariant buffer[0] == command
        invariant buffer[1..i + 1] == lengthBytes[..i]
      {
        buffer[i + 1] := lengthBytes[i];
        assert buffer[1..i + 2] == buffer[1..i + 1] + [buffer[i + 1]];
      }
      payload := buffer;
      pos := 1 + |lengthBytes|;
      new;
      assert payload[..pos] == [payload[0]] + payload[1..pos];
    }

    ghost predicate Valid()
      reads this
    {
      pos <= payload.Length
    }

    function Written(): seq<Byte>
      reads this, payload
      requires Valid()
    {
      payload[..pos]
    }

    /** The room that is left. */
    function Room(): (n: int)
      reads this
    {
      payload.Length - pos
    }

    method WriteByte(byte: Byte)
      requires Valid() && Room() >= 1
      modifies this`pos, payload
      ensures Valid() && Written() == old(Written()) + [byte] && Room() == old(Room()) - 1
    {
      payload[pos] := byte;
      pos := pos + 1;
      assert payload[..pos] == payload[..pos - 1] + [byte];
    }

    method WriteBytes(bytes: seq<Byte>)
      requires Valid() && Room() >= |bytes|
      modifies this`pos, payload
      ensures Valid() && Written() == old(Written()) + bytes && Room() == old(Room()) - |bytes|
    {
      ghost var before := Written();
      for i := 0 to |bytes|
        invariant pos == old(pos) && pos + |bytes| <= payload.Length
        invariant payload[..pos] == before
        invariant payload[pos..pos + i] == bytes[..i]
      {
        payload[pos + i] := bytes[i];
        assert payload[pos..pos + i + 1] == payload[pos..pos + i] + [bytes[i]];
      }
      pos := pos + |bytes|;
      assert payload[..pos] == before + bytes;
    }

    method WriteUint16(word: Word16)
      requires Valid() && Room() >= 2
      modifies this`pos, payload
      ensures Valid() && Written() == old(Written()) + Uint16(word) && Room() == old(Room()) - 2
    {
      WriteByte(word / 0x100);
      WriteByte(word % 0x100);
    }

    method WriteUint32(word: Word32)
      requires Valid() && Room() >= 4
      modifies this`pos, payload
      ensures Valid() && Written() == old(Written()) + Uint32(word) && Room() == old(Room()) - 4
    {
      WriteByte(word / 0x100_0000);
      WriteByte(word / 0x1_0000 % 0x100);
      WriteByte(word / 0x100 % 0x100);
      WriteByte(word % 0x100);
    }

    method WriteString(str: Data)
      requires Valid() && Room() >= 2 + |str|
      modifies this`pos, payload
      ensures Valid() && Written() == old(Written()) + Block(str) && Room() == old(Room()) - 2 - |str|
    {
      WriteUint16(|str|);
      WriteBytes(str);
    }

    /** `packet__write_varint`: a value of 2^28 or more leaves five bytes behind and fails. */
    method WriteVarint(word: nat) returns (rc: Rc)
      requires word < 0x8000_0000
      requires Valid() && Room() >= |Varint.Encode(word)|
      modifies this`pos, payload
      ensures Valid() && Written() == old(Written()) + Varint.Encode(word)
      ensures Room() == old(Room()) - |Varint.Encode(word)|
      ensures rc == if word < Varint.LIMIT then Success else Protocol
    {
      hide Varint.Encode;
      var rest, count, more := word, 0, true;
      ghost var written: seq<Byte> := [];
      Varint.EncodeStep(word);
      while more
        invariant Valid() && 0 <= count <= 5 && |written| == count
        invariant Room() == old(Room()) - count
        invariant more ==> written + Varint.Encode(rest) == Varint.Encode(word) && Smaller(word, rest, count) && count < 5
        invariant !more ==> written == Varint.Encode(word)
        invariant Written() == old(Written()) + written
        decreases more, 5 - count
      {
        var byte: Byte := rest % 0x80;
        ghost var left := rest;
        rest := rest / 0x80;
        if rest > 0 { byte := byte + 0x80; }
        Varint.EncodeStep(left);
        ghost var behind := if rest > 0 then Varint.Encode(rest) else [];
        assert Varint.Encode(left) == [byte] + behind;
        assert written + ([byte] + behind) == written + [byte] + behind;
        WriteByte(byte);
        assert old(Written()) + written + [byte] == old(Written()) + (written + [byte]);
        written := written + [byte];
        count := count + 1;
        SmallerStep(word, left, count - 1);
        more := rest > 0 && count < 5;
      }
      Varint.BytesIsLength(word);
      if count == 5 { return Protocol; }
      return Success;
    }
  }

  /** `rest` is what `count` divisions by 128 leave of a value below 2^31. */
  ghost predicate Smaller(word: nat, rest: nat, count: nat) {
    && (count == 0 ==> rest == word)
    && (count == 1 ==> rest < 0x100_0000)
    && (count == 2 ==> rest < 0x2_0000)
    && (count == 3 ==> rest < 0x400)
    && (count == 4 ==> rest < 8)
  }

  lemma SmallerStep(word: nat, rest: nat, count: nat)
    requires word < 0x8000_0000 && count < 5 && Smaller(word, rest, count)
    ensures Smaller(word, rest / 0x80, count + 1)
    ensures count == 4 ==> rest / 0x80 == 0
  {}

  /** `packet__alloc`: the buffer holds the fixed header and room for the remaining length. */
  method Alloc(command: Byte, remainingLength: Word32) returns (rc: Rc, packet: OutPacket?)
    ensures rc == if remainingLength < Varint.LIMIT then Success else PayloadSize
    ensures rc == Success ==>
              packet != null && fresh(packet) && fresh(packet.payload) && packet.Valid() &&
              packet.command == command && packet.remainingLength == remainingLength &&
              packet.Written() == [command] + Varint.Encode(remainingLength) && packet.Room() == remainingLength
  {
    var rest, count, more := remainingLength as nat, 0, true;
    var remainingBytes: seq<Byte> := [];
    while more
      invariant 0 <= count <= 5 && |remainingBytes| == count
      invariant more ==> remainingBytes + Varint.Encode(rest) == Varint.Encode(remainingLength) && count < 5
      invariant !more ==> if rest == 0 then remainingBytes == Varint.Encode(remainingLength)
                          else count == 5 && remainingBytes + Varint.Encode(rest) == Varint.Encode(remainingLength)
      decreases more, 5 - count
    {
      var byte: Byte := rest % 0x80;
      ghost var left := rest;
      rest := rest / 0x80;
      if rest > 0 { byte := byte + 0x80; }
      assert rest > 0 ==> remainingBytes + [byte] + Varint.Encode(rest) == remainingBytes + Varint.Encode(left);
      remainingBytes := remainingBytes + [byte];
      count := count + 1;
      more := rest > 0 && count < 5;
    }
    Varint.BytesIsLength(remainingLength);
    if count == 5 { return PayloadSize, null; }
    packet := new OutPacket(command, remainingLength, remainingBytes);
    return Success, packet;
  }
}
