/** CONNECT as the server reads it: the decoding half of `handle__connect` and `will__read`. */
module ConnectReader {
  import opened Basics
  import opened Wire
  import opened Packets
  import opened Properties
  import opened PropertyIO
  import opened Encoders
  import Publish
  import Topics
  import Utf8
  import Varint

  /** The server's settings that decide about a CONNECT. */
  datatype Server = Server(retainAvailable: bool, allowEmptyId: bool)

  /** What a CONNECT says. An empty client id, user name or password is read as none. */
  datatype Received = Received(
    protocol: Protocol, bridge: bool, cleanStart: bool, keepalive: Word16, properties: seq<Property>,
    clientId: Option<Data>, will: Option<ReceivedWill>, username: Option<Data>, password: Option<Data>)

  /** A will with the properties that stay with the message, its delay and its expiry interval. */
  datatype ReceivedWill = ReceivedWill(
    topic: Data, payload: Data, qos: Qos, retain: bool, kept: seq<Property>, delay: Word32, expiry: Word32)

  function NonEmpty(data: Data): Option<Data> {
    if data == [] then None else Some(data)
  }

  /** Some reading errors are answered by the plain code 1. */
  function Coded<T>(p: Parsed<T>): Parsed<T> {
    if p.Fail? then Fail(NoMem) else p
  }

  // ---------- The variable header ----------

  /** The name is compared as a C string, so a NUL ends it. */
  predicate IsMqtt(name: Data) {
    |name| >= 4 && name[..4] == [77, 81, 84, 84] && (|name| > 4 ==> name[4] == 0)
  }

  predicate IsMqisdp(name: Data) {
    name == [77, 81, 73, 115, 100, 112]
  }

  /** Protocol, whether a bridge connects, and the version byte. */
  function VersionOf(command: Byte, name: Data, version: Byte): Option<(Protocol, bool)> {
    if IsMqisdp(name) then (if version % 0x80 == 3 then Some((V31, version >= 0x80)) else None)
    else if !IsMqtt(name) || command % 0x10 != 0 then None
    else if version % 0x80 == 4 then Some((V311, version >= 0x80))
    else if version % 0x80 == 5 then Some((V5, false))
    else None
  }

  function ParseVersion(command: Byte, s: seq<Byte>): Parsed<(Protocol, bool, Byte)> {
    var (slen, s1) :- Coded(ParseUint16(s));
    if (slen != 4 && slen != 6) || slen > |s1| then Fail(Rc.Protocol)
    else
      var (version, s2) :- Coded(ParseByte(s1[slen..]));
      match VersionOf(command, s1[..slen], version)
      case None => Fail(Rc.Protocol)
      case Some(v) => Ok((v.0, v.1, version), s2)
  }

  /** The flag byte, bit by bit as section 3.1.2.3 has it. */
  datatype Flags = Flags(username: bool, password: bool, willRetain: bool, willQos: nat, will: bool, cleanStart: bool)

  function FlagsOf(byte: Byte): Flags {
    Flags(byte / 0x80 % 2 == 1, byte / 0x40 % 2 == 1, byte / 0x20 % 2 == 1, byte / 8 % 4, byte / 4 % 2 == 1, byte / 2 % 2 == 1)
  }

  function ParseFlags(server: Server, protocol: Protocol, s: seq<Byte>): (r: Parsed<Flags>)
    ensures r.Ok? ==> r.value.willQos <= 2
  {
    var (byte, rest) :- Coded(ParseByte(s));
    var flags := FlagsOf(byte);
    if protocol != V31 && byte % 2 != 0 then Fail(Rc.Protocol)
    else if flags.willQos == 3 then Fail(Rc.Protocol)
    else if flags.will && flags.willRetain && !server.retainAvailable then Fail(NoMem)
    else Ok(flags, rest)
  }

  // ---------- The payload ----------

  function ParseClientId(server: Server, protocol: Protocol, flags: Flags, s: seq<Byte>): Parsed<Option<Data>> {
    var (id, rest) :- Coded(ParseString(s));
    if id == [] && (protocol == V31 || (protocol == V311 && !flags.cleanStart) || !server.allowEmptyId) then Fail(Rc.Protocol)
    else Ok(NonEmpty(id), rest)
  }

  /** The bytes as the string that the topic check walks over. */
  function TextOf(data: Data): string {
    seq(|data|, i requires 0 <= i < |data| => data[i] as char)
  }

  predicate Publishable(topic: Data) {
    topic != [] && Topics.WildcardFree(TextOf(topic)) && Topics.WithinLimits(TextOf(topic), true)
  }

  datatype WillProperties = WillProperties(kept: seq<Property>, delay: Word32, expiry: Word32)

  const NO_PROPERTIES := WillProperties([], 0, 0)

  /** `property__process_will`: the delay and the expiry interval are taken out of the list. */
  function ProcessWill(ps: seq<Property>, w: WillProperties): Option<WillProperties>
    decreases |ps|
  {
    if ps == [] then Some(w)
    else if ps[0].id in {CONTENT_TYPE, CORRELATION_DATA, PAYLOAD_FORMAT_INDICATOR, RESPONSE_TOPIC, USER_PROPERTY} then
      ProcessWill(ps[1..], w.(kept := w.kept + [ps[0]]))
    else if ps[0].id == WILL_DELAY_INTERVAL then ProcessWill(ps[1..], w.(delay := ps[0].body.i32))
    else if ps[0].id == MESSAGE_EXPIRY_INTERVAL then ProcessWill(ps[1..], w.(expiry := ps[0].body.i32))
    else None
  }

  /** The properties of a will: those of the list that its command allows. */
  function ParseWillProperties(protocol: Protocol, s: seq<Byte>): Parsed<WillProperties> {
    if protocol != V5 then Ok(NO_PROPERTIES, s)
    else
      var (properties, rest) :- ParseAll(Command.Will, s);
      var w := ProcessWill(properties, NO_PROPERTIES);
      if w.None? then Fail(Rc.Protocol) else Ok(w.value, rest)
  }

  function ParseWill(protocol: Protocol, flags: Flags, s: seq<Byte>): Parsed<Option<ReceivedWill>>
    requires flags.willQos <= 2
  {
    if !flags.will then
      if protocol != V31 && (flags.willQos != 0 || flags.willRetain) then Fail(Rc.Protocol) else Ok(None, s)
    else
      var (w, s1) :- ParseWillProperties(protocol, s);
      var (topic, s2) :- ParseString(s1);
      if topic == [] then Fail(Rc.Protocol)
      else if !Publishable(topic) then Fail(Inval)
      else
        var (payload, s3) :- ParseBlock(s2);
        Ok(Some(ReceivedWill(topic, payload, flags.willQos, flags.willRetain, w.kept, w.delay, w.expiry)), s3)
  }

  /** A v3.1 client may announce a user name or a password and leave it out. */
  function ParseUsername(protocol: Protocol, flags: Flags, s: seq<Byte>): Parsed<Option<Data>> {
    if flags.username then
      match ParseString(s)
      case Ok(username, rest) => Ok(NonEmpty(username), rest)
      case Fail(_) => if protocol == V31 then Ok(None, AfterBlock(s)) else Fail(Rc.Protocol)
    else if flags.password && protocol != V5 then Fail(Rc.Protocol)
    else Ok(None, s)
  }

  function ParsePassword(protocol: Protocol, flags: Flags, s: seq<Byte>): Parsed<Option<Data>> {
    if flags.password then
      match ParseBlock(s)
      case Ok(password, rest) => Ok(NonEmpty(password), rest)
      case Fail(_) => if protocol == V31 then Ok(None, AfterBlock(s)) else Fail(Rc.Protocol)
    else Ok(None, s)
  }

  /** The whole body, in the order of sections 3.1.2 and 3.1.3. */
  function ParseConnect(server: Server, command: Byte, s: seq<Byte>): Parsed<Received> {
    var (v, s1) :- ParseVersion(command, s);
    var (flags, s2) :- ParseFlags(server, v.0, s1);
    var (keepalive, s3) :- Coded(ParseUint16(s2));
    var (properties, s4) :- if v.2 == 5 then ParseAll(Command.Connect, s3) else Ok([], s3);
    var (id, s5) :- ParseClientId(server, v.0, flags, s4);
    var (will, s6) :- ParseWill(v.0, flags, s5);
    var (username, s7) :- ParseUsername(v.0, flags, s6);
    var (password, s8) :- ParsePassword(v.0, flags, s7);
    if s8 != [] then Fail(Rc.Protocol)
    else Ok(Received(v.0, v.1, flags.cleanStart, keepalive, properties, id, will, username, password), [])
  }

  // ---------- The server reads what the client wrote ----------

  /** An absent string and an empty one are the same to the reader. */
  function AsRead(data: Option<Data>): Option<Data> {
    if data.Some? then NonEmpty(data.value) else None
  }

  function PropertiesOf(s: Settings): seq<Property> {
    if s.protocol == V5 then s.properties + LocalProperties(s) else []
  }

  /** The properties of a list that stay with the message. */
  function Kept(ps: seq<Property>): seq<Property> {
    if ps == [] then [] else (if ps[0].id == 24 || ps[0].id == 2 then [] else [ps[0]]) + Kept(ps[1..])
  }

  /** The four-byte value of a property in a list, and 0 if it is not there. */
  function ValueOf(ps: seq<Property>, id: int): Word32
    requires id == 24 || id == 2
  {
    if ps == [] then 0 else if ps[0].id == id then ps[0].body.i32 else ValueOf(ps[1..], id)
  }

  /** The will as it can be told from the packet: before v5 it has no properties. */
  function WillOf(s: Settings): Option<ReceivedWill> {
    if s.will.None? then None
    else
      var w := s.will.value;
      var ps := if s.protocol == V5 then w.properties else [];
      Some(ReceivedWill(w.topic, w.payload, w.qos, w.retain, Kept(ps), ValueOf(ps, 24), ValueOf(ps, 2)))
  }

  /** A list that its command allows is split into what is kept, the delay and the expiry interval; only a
      reason string stops that. The table of the checks lets one pass in a will, section 2.2.2.2 does not. */
  lemma {:induction false} ProcessedWill(ps: seq<Property>, w: WillProperties)
    requires ListAllowed(Command.Will, ps)
    ensures var r := ProcessWill(ps, w);
            (r.Some? <==> Without(ps, 31)) &&
            (r.Some? ==> r.value.kept == w.kept + Kept(ps) &&
                         r.value.delay == (if Without(ps, 24) then w.delay else ValueOf(ps, 24)) &&
                         r.value.expiry == (if Without(ps, 2) then w.expiry else ValueOf(ps, 2)))
    decreases |ps|
  {
    hide ListAllowed;
    if ps == [] {
      assert w.kept + [] == w.kept;
    } else {
      var p, t := ps[0], ps[1..];
      assert ps == [p] + t;
      ListAllowedCons(Command.Will, p, t);
      WillIds(p.id);
      Twice(p, t);
      WithoutCons(p, t, 31);
      WithoutCons(p, t, 24);
      WithoutCons(p, t, 2);
      var w' := if p.id == 24 then w.(delay := p.body.i32) else if p.id == 2 then w.(expiry := p.body.i32) else w.(kept := w.kept + [p]);
      if p.id != 31 {
        ProcessedWill(t, w');
        assert (w.kept + [p]) + Kept(t) == w.kept + ([p] + Kept(t)) && w.kept + ([] + Kept(t)) == w.kept + Kept(t);
      }
    }
  }

  predicate Without(ps: seq<Property>, id: int) {
    forall i :: 0 <= i < |ps| ==> ps[i].id != id
  }

  lemma WithoutCons(p: Property, t: seq<Property>, id: int)
    ensures Without([p] + t, id) <==> p.id != id && Without(t, id)
  {
    var ps := [p] + t;
    assert ps[0] == p && forall i :: 0 <= i < |t| ==> ps[i + 1] == t[i];
    if Without(ps, id) {
      assert forall i :: 0 <= i < |t| ==> t[i] == ps[i + 1];
    }
  }

  lemma WillIds(id: int)
    ensures CheckCommand(Command.Will, id) == Success ==> id in {1, 2, 3, 8, 9, 24, 31, 38}
  {}

  /** No property but a user property is there twice. */
  lemma Twice(p: Property, t: seq<Property>)
    requires forall j :: 0 <= j < |t| ==> !DuplicateOf(p, t[j])
    ensures p.id != 38 ==> Without(t, p.id)
  {}

  lemma {:induction false} ValueAbsent(ps: seq<Property>, id: int)
    requires (id == 24 || id == 2) && Without(ps, id)
    ensures ValueOf(ps, id) == 0
  {
    if ps != [] {
      assert ps == [ps[0]] + ps[1..];
      WithoutCons(ps[0], ps[1..], id);
      ValueAbsent(ps[1..], id);
    }
  }

  lemma {:induction false} WillPropertiesRoundTrip(s: Settings, rest: seq<Byte>)
    requires s.will.Some?
    requires s.protocol == V5 ==> Listed(Command.Will, s.will.value.properties) && Without(s.will.value.properties, 31)
    ensures var ps := if s.protocol == V5 then s.will.value.properties else [];
            ParseWillProperties(s.protocol, (if s.protocol == V5 then Section(ps) else []) + rest) ==
            Ok(WillProperties(Kept(ps), ValueOf(ps, 24), ValueOf(ps, 2)), rest)
  {
    hide Section, ParseAll, AllReadable, ListAllowed, LengthAll, ProcessWill;
    if s.protocol == V5 {
      var ps := s.will.value.properties;
      SectionRoundTrip(Command.Will, ps, rest);
      ProcessedWill(ps, NO_PROPERTIES);
      if Without(ps, 24) { ValueAbsent(ps, 24); }
      if Without(ps, 2) { ValueAbsent(ps, 2); }
      assert [] + Kept(ps) == Kept(ps);
    } else {
      assert [] + rest == rest;
    }
  }

  predicate Listed(command: Command, ps: seq<Property>) {
    AllReadable(ps) && ListAllowed(command, ps) && LengthAll(ps) < Varint.LIMIT
  }

  /** What a server accepts of a client's settings: strings are UTF-8, property lists are allowed, an empty
      client id only without a session to resume and where configured, a retained will where available. */
  predicate Acceptable(server: Server, s: Settings) {
    && (s.protocol == V5 ==> Listed(Command.Connect, PropertiesOf(s)))
    && (AsRead(s.clientId).None? ==> s.protocol != V31 && (s.protocol == V311 ==> s.cleanSession) && server.allowEmptyId)
    && (s.clientId.Some? ==> Utf8.Accepts(s.clientId.value))
    && (s.will.Some? ==>
          && Utf8.Accepts(s.will.value.topic) && Publishable(s.will.value.topic)
          && (s.will.value.retain ==> server.retainAvailable)
          && (s.protocol == V5 ==> Listed(Command.Will, s.will.value.properties) && Without(s.will.value.properties, 31)))
    && (s.username.Some? ==> Utf8.Accepts(s.username.value))
    && (s.protocol != V5 && s.password.Some? ==> s.username.Some?)
  }

  /** The flags say which parts are there. */
  predicate Tell(f: Flags, s: Settings) {
    && f.username == s.username.Some? && f.password == s.password.Some? && f.cleanStart == s.cleanSession
    && f.will == s.will.Some? && f.willRetain == (s.will.Some? && s.will.value.retain)
    && f.willQos == if s.will.Some? then s.will.value.qos else 0
  }

  /** The reader takes the flag byte apart into what the writer put together. */
  lemma FlagsRoundTrip(s: Settings)
    ensures ConnectFlags(s) % 2 == 0 && Tell(FlagsOf(ConnectFlags(s)), s)
  {
    var will := s.will.Some?;
    BitsApart(Publish.Bit(s.username.Some?), Publish.Bit(s.password.Some?), if will then Publish.Bit(s.will.value.retain) else 0,
              if will then s.will.value.qos else 0, Publish.Bit(will), Publish.Bit(s.cleanSession));
  }

  lemma BitsApart(u: int, p: int, r: int, q: int, w: int, c: int)
    requires 0 <= u <= 1 && 0 <= p <= 1 && 0 <= r <= 1 && 0 <= q <= 2 && 0 <= w <= 1 && 0 <= c <= 1
    ensures var b := 128 * u + 64 * p + 32 * r + 8 * q + 4 * w + 2 * c;
            b % 2 == 0 && b / 2 % 2 == c && b / 4 % 2 == w && b / 8 % 4 == q && b / 32 % 2 == r && b / 64 % 2 == p && b / 128 % 2 == u
  {
    var b := 128 * u + 64 * p + 32 * r + 8 * q + 4 * w + 2 * c;
    assert b / 2 == 64 * u + 32 * p + 16 * r + 4 * q + 2 * w + c;
    assert b / 4 == 32 * u + 16 * p + 8 * r + 2 * q + w;
    assert b / 8 == 16 * u + 8 * p + 4 * r + q;
    assert b / 32 == 4 * u + 2 * p + r;
    assert b / 64 == 2 * u + p;
  }

  /** Name, level, flags and keep alive stand at fixed places, and the name and level tell the protocol. */
  lemma FrontBytes(s: Settings)
    ensures var b := ConnectFront(s);
            if s.protocol == V31 then
              b == [0, 6, 77, 81, 73, 115, 100, 112, 3, ConnectFlags(s), s.keepalive / 0x100, s.keepalive % 0x100]
            else
              b == [0, 4, 77, 81, 84, 84, if s.protocol == V5 then 5 else 4, ConnectFlags(s), s.keepalive / 0x100, s.keepalive % 0x100]
  {}

  lemma VersionRoundTrip(s: Settings, rest: seq<Byte>)
    ensures ParseVersion(0x10, ConnectFront(s) + rest) ==
            Ok((s.protocol, false, Level(s.protocol)), [ConnectFlags(s)] + (Uint16(s.keepalive) + rest))
  {
    hide ConnectFlags, Uint16, ParseUint16;
    var name: seq<Byte> := ProtocolName(s.protocol);
    var t: seq<Byte> := [Level(s.protocol)] + ([ConnectFlags(s)] + (Uint16(s.keepalive) + rest));
    assert ConnectFront(s) + rest == Uint16(|name|) + (name + t);
    Uint16RoundTrip(|name|, name + t);
    assert (name + t)[..|name|] == name && (name + t)[|name|..] == t;
    assert t[1..] == [ConnectFlags(s)] + (Uint16(s.keepalive) + rest);
  }

  lemma ParseFlagsRoundTrip(server: Server, s: Settings, rest: seq<Byte>)
    requires Acceptable(server, s)
    ensures ParseFlags(server, s.protocol, [ConnectFlags(s)] + rest) == Ok(FlagsOf(ConnectFlags(s)), rest)
  {
    hide ConnectFlags, FlagsOf, Utf8.Accepts, Publishable, Listed;
    FlagsRoundTrip(s);
    assert ([ConnectFlags(s)] + rest)[1..] == rest;
  }

  lemma IdRoundTrip(server: Server, s: Settings, f: Flags, rest: seq<Byte>)
    requires Acceptable(server, s) && Tell(f, s)
    ensures ParseClientId(server, s.protocol, f,
                          (if s.clientId.Some? then Block(s.clientId.value) else Uint16(0)) + rest) == Ok(AsRead(s.clientId), rest)
  {
    hide Publishable, Listed, Block, Uint16, ParseString;
    var id := if s.clientId.Some? then s.clientId.value else [];
    assert Block([]) == Uint16(0) by { NoBytes(); }
    assert Utf8.Accepts([]);
    StringRoundTrip(id, rest);
  }

  lemma NoBytes()
    ensures Block([]) == Uint16(0)
  {}

  lemma {:induction false} WillRoundTrip(server: Server, s: Settings, f: Flags, rest: seq<Byte>)
    requires Acceptable(server, s) && Tell(f, s)
    ensures ParseWill(s.protocol, f, WillImage(s) + rest) == Ok(WillOf(s), rest)
  {
    hide Publishable, Block, Section, ParseString, ParseBlock, ParseWillProperties, Utf8.Accepts, Listed, Without, Kept, ValueOf;
    PublishableNotEmpty(s);
    if s.will.Some? {
      var w := s.will.value;
      var s2 := Block(w.payload) + rest;
      var s1 := Block(w.topic) + s2;
      BlockRoundTrip(w.payload, rest);
      StringRoundTrip(w.topic, s2);
      WillPropertiesRoundTrip(s, s1);
      assert WillImage(s) + rest == (if s.protocol == V5 then Section(w.properties) else []) + s1;
    } else {
      assert WillImage(s) + rest == rest;
    }
  }

  lemma PublishableNotEmpty(s: Settings)
    ensures s.will.Some? && Publishable(s.will.value.topic) ==> s.will.value.topic != []
  {}

  lemma UsernameRoundTrip(server: Server, s: Settings, f: Flags, rest: seq<Byte>)
    requires Acceptable(server, s) && Tell(f, s)
    ensures ParseUsername(s.protocol, f, OptionalBlock(s.username) + rest) == Ok(AsRead(s.username), rest)
  {
    hide Publishable, Listed, Block, ParseString, Utf8.Accepts;
    if s.username.Some? {
      StringRoundTrip(s.username.value, rest);
    } else {
      assert [] + rest == rest;
    }
  }

  lemma PasswordRoundTrip(s: Settings, f: Flags, rest: seq<Byte>)
    requires Tell(f, s)
    ensures ParsePassword(s.protocol, f, OptionalBlock(s.password) + rest) == Ok(AsRead(s.password), rest)
  {
    hide Block, ParseBlock;
    if s.password.Some? {
      BlockRoundTrip(s.password.value, rest);
    } else {
      assert [] + rest == rest;
    }
  }

  /** What the client writes the server reads: protocol, clean start, keep alive, properties, client id,
      will, user name and password, each an empty string or what was set. */
  lemma {:induction false} ConnectRoundTrip(server: Server, s: Settings)
    requires Acceptable(server, s)
    ensures ParseConnect(server, 0x10, ConnectHeader(s) + ConnectPayload(s)) ==
            Ok(Received(s.protocol, false, s.cleanSession, s.keepalive, PropertiesOf(s),
                        AsRead(s.clientId), WillOf(s), AsRead(s.username), AsRead(s.password)), [])
  {
    hide ParseVersion, ParseFlags, ParseUint16, ParseAll, ParseClientId, ParseWill, ParseUsername, ParsePassword;
    hide ConnectFront, Section, Block, Uint16, WillImage, OptionalBlock, Acceptable, ConnectFlags, FlagsOf, AsRead, WillOf;
    var b8 := [];
    var b7 := OptionalBlock(s.password) + b8;
    var b6 := OptionalBlock(s.username) + b7;
    var b5 := WillImage(s) + b6;
    var id := if s.clientId.Some? then Block(s.clientId.value) else Uint16(0);
    var b4 := id + b5;
    var ps := if s.protocol == V5 then Section(PropertiesOf(s)) else [];
    var b3 := ps + b4;
    BodyInPieces(ConnectFront(s), ps, id, WillImage(s), OptionalBlock(s.username), OptionalBlock(s.password));
    VersionRoundTrip(s, b3);
    ParseFlagsRoundTrip(server, s, Uint16(s.keepalive) + b3);
    FlagsRoundTrip(s);
    var f := FlagsOf(ConnectFlags(s));
    Uint16RoundTrip(s.keepalive, b3);
    PropertiesRoundTrip(server, s, b4);
    IdRoundTrip(server, s, f, b5);
    WillRoundTrip(server, s, f, b6);
    UsernameRoundTrip(server, s, f, b7);
    PasswordRoundTrip(s, f, b8);
  }

  lemma BodyInPieces(front: seq<Byte>, ps: seq<Byte>, id: seq<Byte>, will: seq<Byte>, username: seq<Byte>, password: seq<Byte>)
    ensures (front + ps) + (id + will + username + password) == front + (ps + (id + (will + (username + (password + [])))))
  {}

  lemma PropertiesRoundTrip(server: Server, s: Settings, rest: seq<Byte>)
    requires Acceptable(server, s)
    ensures var b := (if s.protocol == V5 then Section(PropertiesOf(s)) else []) + rest;
            (if Level(s.protocol) == 5 then ParseAll(Command.Connect, b) else Ok([], b)) == Ok(PropertiesOf(s), rest)
  {
    hide Section, ParseAll, Utf8.Accepts, Publishable, AllReadable, ListAllowed, LengthAll, LocalProperties;
    if s.protocol == V5 {
      SectionRoundTrip(Command.Connect, PropertiesOf(s), rest);
    } else {
      assert [] + rest == rest;
    }
  }

  /** A v5 client always announces a receive maximum: the caller's, or else its own behind what the caller
      set. */
  lemma ReceiveMaximumAnnounced(s: Settings)
    requires s.protocol == V5
    ensures var ps := PropertiesOf(s);
            (exists i :: 0 <= i < |ps| && ps[i].id == 33) &&
            if Without(s.properties, 33) then ps == s.properties + [RawProperty.Property(33, Int16(s.inflightMaximum))]
            else ps == s.properties
  {
    var ps := PropertiesOf(s);
    if Without(s.properties, 33) {
      assert ps[|s.properties|].id == 33;
    } else {
      var i :| 0 <= i < |s.properties| && s.properties[i].id == 33;
      assert ps[i].id == 33;
      assert s.properties + [] == s.properties;
    }
  }

  /** A user name comes back as it was set exactly if it is not the empty one, which the server takes for
      none; the same holds for a password. */
  lemma CredentialsReadIff(server: Server, s: Settings)
    requires Acceptable(server, s)
    ensures var r := ParseConnect(server, 0x10, ConnectHeader(s) + ConnectPayload(s));
            r.Ok? &&
            (r.value.username == s.username <==> s.username != Some([])) &&
            (r.value.password == s.password <==> s.password != Some([]))
  {
    hide ParseConnect, ConnectHeader, ConnectPayload, Acceptable;
    ConnectRoundTrip(server, s);
  }

  // ---------- The handler in place ----------

  /** `handle__connect` from the protocol name to the end of the packet. */
  method DecodeConnect(server: Server, packet: InPacket) returns (rc: Rc, received: Received)
    requires packet.Valid()
    modifies packet`pos
    ensures packet.Valid()
    ensures match ParseConnect(server, packet.command, old(packet.Rest()))
            case Ok(r, _) => rc == Success && received == r && packet.Rest() == []
            case Fail(e) => rc == e
  {
    hide ParseVersion, ParseFlags, ParseUint16, ParseAll, ParseClientId, ParseWill, ParseUsername, ParsePassword;
    received := Received(V31, false, false, 0, [], None, None, None, None);
    var protocol, bridge, version;
    rc, protocol, bridge, version := ReadVersion(packet);
    if rc != Success { return; }
    var flags;
    rc, flags := ReadFlags(server, protocol, packet);
    if rc != Success { return; }
    var keepalive;
    rc, keepalive := packet.ReadUint16();
    if rc != Success { return NoMem, received; }
    var properties := [];
    if version == 5 {
      rc, properties := ReadAll(Command.Connect, packet);
      if rc != Success { return; }
    }
    var id, will, username, password;
    rc, id := ReadClientId(server, protocol, flags, packet);
    if rc != Success { return; }
    rc, will := ReadWill(protocol, flags, packet);
    if rc != Success { return; }
    rc, username := ReadUsername(protocol, flags, packet);
    if rc != Success { return; }
    rc, password := ReadPassword(protocol, flags, packet);
    if rc != Success { return; }
    if packet.pos != packet.payload.Length { return Rc.Protocol, received; }
    received := Received(protocol, bridge, flags.cleanStart, keepalive, properties, id, will, username, password);
  }

  method ReadVersion(packet: InPacket) returns (rc: Rc, protocol: Protocol, bridge: bool, version: Byte)
    requires packet.Valid()
    modifies packet`pos
    ensures packet.Valid()
    ensures match ParseVersion(packet.command, old(packet.Rest()))
            case Ok(v, rest) => rc == Success && (protocol, bridge, version) == v && packet.Rest() == rest
            case Fail(e) => rc == e
  {
    hide ParseUint16;
    protocol, bridge, version := V31, false, 0;
    var slen, name;
    rc, slen := packet.ReadUint16();
    if rc != Success { return NoMem, protocol, bridge, version; }
    if slen != 4 && slen != 6 { return Rc.Protocol, protocol, bridge, version; }
    rc, name := packet.ReadBytes(slen);
    if rc != Success { return Rc.Protocol, protocol, bridge, version; }
    rc, version := packet.ReadByte();
    if rc != Success { return NoMem, protocol, bridge, version; }
    if IsMqisdp(name) {
      if version % 0x80 != 3 { return Rc.Protocol, protocol, bridge, version; }
      protocol, bridge := V31, version >= 0x80;
    } else if IsMqtt(name) {
      if version % 0x80 == 4 {
        protocol, bridge := V311, version >= 0x80;
      } else if version % 0x80 == 5 {
        protocol := V5;
      } else {
        return Rc.Protocol, protocol, bridge, version;
      }
      if packet.command % 0x10 != 0 { return Rc.Protocol, protocol, bridge, version; }
    } else {
      return Rc.Protocol, protocol, bridge, version;
    }
  }

  method ReadFlags(server: Server, protocol: Protocol, packet: InPacket) returns (rc: Rc, flags: Flags)
    requires packet.Valid()
    modifies packet`pos
    ensures packet.Valid()
    ensures match ParseFlags(server, protocol, old(packet.Rest()))
            case Ok(f, rest) => rc == Success && flags == f && packet.Rest() == rest
            case Fail(e) => rc == e
  {
    flags := FlagsOf(0);
    var byte;
    rc, byte := packet.ReadByte();
    if rc != Success { return NoMem, flags; }
    if protocol != V31 {
      if byte % 2 != 0 { return Rc.Protocol, flags; }
    }
    flags := FlagsOf(byte);
    if flags.willQos == 3 { return Rc.Protocol, flags; }
    if flags.will && flags.willRetain && !server.retainAvailable { return NoMem, flags; }
  }

  method ReadClientId(server: Server, protocol: Protocol, flags: Flags, packet: InPacket) returns (rc: Rc, id: Option<Data>)
    requires packet.Valid()
    modifies packet`pos
    ensures packet.Valid()
    ensures match ParseClientId(server, protocol, flags, old(packet.Rest()))
            case Ok(v, rest) => rc == Success && id == v && packet.Rest() == rest
            case Fail(e) => rc == e
  {
    hide ParseString;
    id := None;
    var str;
    rc, str := packet.ReadString();
    if rc != Success { return NoMem, id; }
    if |str| == 0 {
      if protocol == V31 { return Rc.Protocol, id; }
      if (protocol == V311 && !flags.cleanStart) || !server.allowEmptyId { return Rc.Protocol, id; }
    } else {
      id := Some(str);
    }
  }

  /** A string that the reader accepted holds no NUL. */
  lemma {:induction false} NoNul(s: seq<Byte>)
    requires Utf8.Accepts(s)
    ensures 0 !in s
    decreases |s|
  {
    if s != [] {
      var n := Utf8.Width(s[0]);
      NoNul(s[n..]);
      assert forall k :: 0 <= k < |s| ==> if k < n then s[k] != 0 else s[k] == s[n..][k - n];
    }
  }

  lemma TextHasNoNul(data: Data)
    requires 0 !in data
    ensures '\0' !in TextOf(data)
  {}

  method ProcessWillMethod(properties: seq<Property>) returns (rc: Rc, w: WillProperties)
    ensures match ProcessWill(properties, NO_PROPERTIES)
            case Some(v) => rc == Success && w == v
            case None => rc == Rc.Protocol
  {
    w := NO_PROPERTIES;
    assert properties[0..] == properties;
    for i := 0 to |properties|
      invariant ProcessWill(properties[i..], w) == ProcessWill(properties, NO_PROPERTIES)
    {
      var p := properties[i];
      assert properties[i..][0] == p && properties[i..][1..] == properties[i + 1..];
      if p.id in {CONTENT_TYPE, CORRELATION_DATA, PAYLOAD_FORMAT_INDICATOR, RESPONSE_TOPIC, USER_PROPERTY} {
        w := w.(kept := w.kept + [p]);
      } else if p.id == WILL_DELAY_INTERVAL {
        w := w.(delay := p.body.i32);
      } else if p.id == MESSAGE_EXPIRY_INTERVAL {
        w := w.(expiry := p.body.i32);
      } else {
        return Rc.Protocol, w;
      }
    }
    return Success, w;
  }

  method ReadWill(protocol: Protocol, flags: Flags, packet: InPacket) returns (rc: Rc, will: Option<ReceivedWill>)
    requires packet.Valid() && flags.willQos <= 2
    modifies packet`pos
    ensures packet.Valid()
    ensures match ParseWill(protocol, flags, old(packet.Rest()))
            case Ok(v, rest) => rc == Success && will == v && packet.Rest() == rest
            case Fail(e) => rc == e
  {
    hide ParseBlock, ParseAll, ProcessWill, Utf8.Accepts;
    will := None;
    if flags.will {
      var w, topic, payload := NO_PROPERTIES, [], [];
      if protocol == V5 {
        var properties;
        rc, properties := ReadAll(Command.Will, packet);
        if rc != Success { return; }
        rc, w := ProcessWillMethod(properties);
        if rc != Success { return; }
      }
      rc, topic := packet.ReadString();
      if rc != Success { return; }
      if |topic| == 0 { return Rc.Protocol, will; }
      NoNul(topic);
      TextHasNoNul(topic);
      rc := Topics.PubTopicCheck(TextOf(topic), true);
      if rc != Success { return; }
      rc, payload := packet.ReadBinary();
      if rc != Success { return; }
      will := Some(ReceivedWill(topic, payload, flags.willQos, flags.willRetain, w.kept, w.delay, w.expiry));
    } else {
      if protocol != V31 {
        if flags.willQos != 0 || flags.willRetain { return Rc.Protocol, will; }
      }
      return Success, will;
    }
  }

  method ReadUsername(protocol: Protocol, flags: Flags, packet: InPacket) returns (rc: Rc, username: Option<Data>)
    requires packet.Valid()
    modifies packet`pos
    ensures packet.Valid()
    ensures match ParseUsername(protocol, flags, old(packet.Rest()))
            case Ok(v, rest) => rc == Success && username == v && packet.Rest() == rest
            case Fail(e) => rc == e
  {
    hide ParseString, AfterBlock;
    username := None;
    if flags.username {
      var str;
      rc, str := packet.ReadString();
      if rc != Success {
        if protocol == V31 { return Success, username; } else { return Rc.Protocol, username; }
      }
      username := NonEmpty(str);
    } else {
      if protocol == V311 || protocol == V31 {
        if flags.password { return Rc.Protocol, username; }
      }
      return Success, username;
    }
  }

  method ReadPassword(protocol: Protocol, flags: Flags, packet: InPacket) returns (rc: Rc, password: Option<Data>)
    requires packet.Valid()
    modifies packet`pos
    ensures packet.Valid()
    ensures match ParsePassword(protocol, flags, old(packet.Rest()))
            case Ok(v, rest) => rc == Success && password == v && packet.Rest() == rest
            case Fail(e) => rc == e
  {
    hide ParseBlock, AfterBlock;
    password := None;
    if flags.password {
      var data;
      rc, data := packet.ReadBinary();
      if rc != Success {
        if protocol == V31 { return Success, password; } else { return Rc.Protocol, password; }
      }
      password := NonEmpty(data);
    } else {
      return Success, password;
    }
  }
}
