/** SUBSCRIBE as the server reads it: the decoding half of `handle__subscribe`, which takes the packet
    identifier, the properties of v5 and then one filter after the other with its options byte to the end of
    the packet. An empty filter is passed over without its options byte, as the reader of strings yields
    nothing for it. What a client writes is read back, filter by filter and in order. */
module SubscribeReader {
  import opened Basics
  import opened Wire
  import opened Packets
  import opened Properties
  import opened PropertyIO
  import opened Encoders
  import opened ConnectReader
  import Topics
  import Utf8
  import Varint

  datatype Subscription = Subscription(filter: Data, qos: nat, options: nat)

  datatype Subscriptions = Subscriptions(mid: Word16, identifier: Word32, list: seq<Subscription>)

  // ---------- Reading ----------

  predicate Subscribable(filter: Data) {
    filter != [] && Topics.ValidFilter(TextOf(filter)) && Topics.WithinLimits(TextOf(filter), true)
  }

  /** The QoS and the other options of a filter; before v5 a bridge gets fixed options. */
  function OptionsOf(protocol: Protocol, bridge: bool, byte: Byte): Option<(nat, nat)> {
    if protocol == V5 then
      if byte / 0x10 % 4 == 3 || byte / 0x40 != 0 || byte % 4 == 3 then None else Some((byte % 4, byte - byte % 4))
    else if byte > 2 then None
    else Some((byte, if bridge then 8 + 4 else byte))
  }

  function OptionsError(protocol: Protocol, byte: Byte): ErrorCode {
    if protocol == V5 && (byte / 0x10 % 4 == 3 || byte / 0x40 != 0) then Rc.Protocol else NoMem
  }

  /** The filters to the end of the packet. An empty filter is passed over, its options byte is not. */
  function ParseFilters(protocol: Protocol, bridge: bool, s: seq<Byte>): Parsed<seq<Subscription>>
    decreases |s|
  {
    if s == [] then Ok([], [])
    else
      var (filter, s1) :- Coded(ParseString(s));
      Shorter(s);
      if filter == [] then ParseFilters(protocol, bridge, s1)
      else if !Subscribable(filter) then Fail(NoMem)
      else
        var (byte, s2) :- Coded(ParseByte(s1));
        match OptionsOf(protocol, bridge, byte)
        case None => Fail(OptionsError(protocol, byte))
        case Some(o) =>
          var (tail, rest) :- ParseFilters(protocol, bridge, s2);
          Ok([Subscription(filter, o.0, o.1)] + tail, rest)
  }

  lemma Shorter(s: seq<Byte>)
    ensures ParseString(s).Ok? ==> |ParseString(s).rest| < |s| && Utf8.Accepts(ParseString(s).value)
  {
    hide Utf8.Accepts;
  }

  /** The first subscription identifier in a list. */
  function IdentifierOf(ps: seq<Property>): Option<Word32> {
    if ps == [] then None
    else if ps[0].id == SUBSCRIPTION_IDENTIFIER then Some(ps[0].body.varint)
    else IdentifierOf(ps[1..])
  }

  function ParseSubscribe(protocol: Protocol, bridge: bool, command: Byte, s: seq<Byte>): Parsed<Subscriptions> {
    if protocol != V31 && command % 0x10 != 2 then Fail(Rc.Protocol)
    else
      var (mid, s1) :- Coded(ParseUint16(s));
      if mid == 0 then Fail(Rc.Protocol)
      else
        var (properties, s2) :- if protocol == V5 then ParseAll(Command.Subscribe, s1) else Ok([], s1);
        var id := IdentifierOf(properties);
        if id == Some(0) then Fail(Rc.Protocol)
        else
          var (list, rest) :- ParseFilters(protocol, bridge, s2);
          if protocol != V31 && list == [] then Fail(Rc.Protocol)
          else Ok(Subscriptions(mid, if id.Some? then id.value else 0, list), [])
  }

  /** One round of the loop over the filters. */
  function Before(list: seq<Subscription>, r: Parsed<seq<Subscription>>): Parsed<seq<Subscription>> {
    if r.Ok? then Ok(list + r.value, r.rest) else r
  }

  lemma BeforeNothing(r: Parsed<seq<Subscription>>)
    ensures Before([], r) == r
  {
    if r.Ok? { assert [] + r.value == r.value; }
  }

  lemma {:induction false} FilterStep(protocol: Protocol, bridge: bool, s: seq<Byte>, list: seq<Subscription>)
    requires s != []
    ensures var f := ParseString(s);
            var whole := Before(list, ParseFilters(protocol, bridge, s));
            if f.Fail? then whole == Fail(NoMem)
            else if f.value == [] then whole == Before(list, ParseFilters(protocol, bridge, f.rest))
            else if !Subscribable(f.value) || f.rest == [] then whole == Fail(NoMem)
            else
              var o := OptionsOf(protocol, bridge, f.rest[0]);
              if o.None? then whole == Fail(OptionsError(protocol, f.rest[0]))
              else whole == Before(list + [Subscription(f.value, o.value.0, o.value.1)], ParseFilters(protocol, bridge, f.rest[1..]))
  {
    hide ParseString, Subscribable, OptionsOf, OptionsError;
    Shorter(s);
    var f := ParseString(s);
    if f.Ok? && f.value != [] && f.rest != [] {
      var o := OptionsOf(protocol, bridge, f.rest[0]);
      var tail := ParseFilters(protocol, bridge, f.rest[1..]);
      if o.Some? && tail.Ok? {
        var first := [Subscription(f.value, o.value.0, o.value.1)];
        assert list + (first + tail.value) == (list + first) + tail.value;
      }
    }
  }

  /** `handle__subscribe` up to the end of its loop, without what it does for each filter. */
  method DecodeSubscribe(protocol: Protocol, bridge: bool, packet: InPacket) returns (rc: Rc, subscriptions: Subscriptions)
    requires packet.Valid()
    modifies packet`pos
    ensures packet.Valid()
    ensures match ParseSubscribe(protocol, bridge, packet.command, old(packet.Rest()))
            case Ok(v, _) => rc == Success && subscriptions == v && packet.Rest() == []
            case Fail(e) => rc == e
  {
    hide ParseUint16, ParseAll, ParseFilters, IdentifierOf;
    subscriptions := Subscriptions(0, 0, []);
    if protocol != V31 {
      if packet.command % 0x10 != 2 { return Rc.Protocol, subscriptions; }
    }
    var mid;
    rc, mid := packet.ReadUint16();
    if rc != Success { return NoMem, subscriptions; }
    if mid == 0 { return Rc.Protocol, subscriptions; }
    var identifier := 0;
    if protocol == V5 {
      var properties;
      rc, properties := ReadAll(Command.Subscribe, packet);
      if rc != Success { return; }
      var id := IdentifierOf(properties);
      if id.Some? {
        identifier := id.value;
        if identifier == 0 { return Rc.Protocol, subscriptions; }
      }
    }
    NoIdentifier();
    var list;
    rc, list := ReadFilters(protocol, bridge, packet);
    if rc != Success { return; }
    if protocol != V31 {
      if |list| == 0 { return Rc.Protocol, subscriptions; }
    }
    subscriptions := Subscriptions(mid, identifier, list);
  }

  lemma NoIdentifier()
    ensures IdentifierOf([]) == None
  {}

  method ReadFilters(protocol: Protocol, bridge: bool, packet: InPacket) returns (rc: Rc, list: seq<Subscription>)
    requires packet.Valid()
    modifies packet`pos
    ensures packet.Valid()
    ensures match ParseFilters(protocol, bridge, old(packet.Rest()))
            case Ok(v, _) => rc == Success && list == v && packet.Rest() == []
            case Fail(e) => rc == e
  {
    hide ParseString, ParseFilters, Subscribable, OptionsOf, OptionsError;
    ghost var whole := ParseFilters(protocol, bridge, packet.Rest());
    list := [];
    BeforeNothing(whole);
    while packet.pos < packet.payload.Length
      invariant packet.Valid()
      invariant Before(list, ParseFilters(protocol, bridge, packet.Rest())) == whole
      decreases packet.payload.Length - packet.pos
    {
      FilterStep(protocol, bridge, packet.Rest(), list);
      Shorter(packet.Rest());
      var filter;
      rc, filter := packet.ReadString();
      if rc != Success { return NoMem, list; }
      if |filter| > 0 {
        var valid := IsSubscribable(filter);
        if !valid { return NoMem, list; }
        var byte;
        rc, byte := packet.ReadByte();
        if rc != Success { return NoMem, list; }
        var o := OptionsOf(protocol, bridge, byte);
        if o.None? { return OptionsError(protocol, byte), list; }
        list := list + [Subscription(filter, o.value.0, o.value.1)];
      }
    }
    NoFilters(protocol, bridge);
    return Success, list;
  }

  lemma NoFilters(protocol: Protocol, bridge: bool)
    ensures ParseFilters(protocol, bridge, []) == Ok([], [])
  {}

  method IsSubscribable(filter: Data) returns (valid: bool)
    requires filter != [] && Utf8.Accepts(filter)
    ensures valid == Subscribable(filter)
  {
    hide Utf8.Accepts;
    NoNul(filter);
    TextHasNoNul(filter);
    var rc := Topics.SubTopicCheck(TextOf(filter), true);
    return rc == Success;
  }

  // ---------- The server reads what the client wrote ----------

  /** What the filters of a SUBSCRIBE become, all under the same options byte. */
  function Asked(topics: seq<Data>, o: (nat, nat)): seq<Subscription> {
    if topics == [] then [] else [Subscription(topics[0], o.0, o.1)] + Asked(topics[1..], o)
  }

  predicate AllSubscribable(topics: seq<Data>) {
    forall i :: 0 <= i < |topics| ==> Utf8.Accepts(topics[i]) && Subscribable(topics[i])
  }

  lemma {:induction false} FiltersRoundTrip(protocol: Protocol, bridge: bool, topics: seq<Data>, byte: Byte)
    requires AllSubscribable(topics) && OptionsOf(protocol, bridge, byte).Some?
    ensures ParseFilters(protocol, bridge, TopicList(topics, byte)) ==
            Ok(Asked(topics, OptionsOf(protocol, bridge, byte).value), [])
  {
    hide ParseString, OptionsOf, OptionsError, Block, Utf8.Accepts, Subscribable, ParseFilters;
    if topics == [] {
      NoFilters(protocol, bridge);
    } else {
      var t := topics[1..];
      assert forall i :: 0 <= i < |t| ==> t[i] == topics[i + 1];
      FiltersRoundTrip(protocol, bridge, t, byte);
      var rest := [byte] + TopicList(t, byte);
      var s := TopicList(topics, byte);
      assert s == Block(topics[0]) + rest && rest[1..] == TopicList(t, byte);
      StringRoundTrip(topics[0], rest);
      SubscribableNotEmpty(topics[0]);
      BeforeNothing(ParseFilters(protocol, bridge, s));
      FilterStep(protocol, bridge, s, []);
      assert [] + [Subscription(topics[0], OptionsOf(protocol, bridge, byte).value.0, OptionsOf(protocol, bridge, byte).value.1)]
        == [Subscription(topics[0], OptionsOf(protocol, bridge, byte).value.0, OptionsOf(protocol, bridge, byte).value.1)];
    }
  }

  lemma SubscribableNotEmpty(filter: Data)
    ensures Subscribable(filter) ==> filter != []
  {}

  /** What the client writes the server reads: identifier, filters in order, QoS and options. */
  lemma {:induction false} SubscribeRoundTrip(protocol: Protocol, bridge: bool, mid: Word16, topics: seq<Data>, byte: Byte,
                                              properties: seq<Property>)
    requires mid != 0 && topics != [] && AllSubscribable(topics) && OptionsOf(protocol, bridge, byte).Some?
    requires protocol == V5 ==> Listed(Command.Subscribe, properties) && IdentifierOf(properties) != Some(0)
    ensures var id := if protocol == V5 then IdentifierOf(properties) else None;
            ParseSubscribe(protocol, bridge, 0x82, SubscribeBody(protocol, mid, topics, byte, properties)) ==
            Ok(Subscriptions(mid, if id.Some? then id.value else 0, Asked(topics, OptionsOf(protocol, bridge, byte).value)), [])
  {
    hide ParseUint16, Uint16, ParseAll, ParseFilters, IdentifierOf, Section, TopicList, OptionsOf, AllSubscribable;
    hide AllReadable, ListAllowed, LengthAll;
    var s2 := TopicList(topics, byte);
    var s1 := (if protocol == V5 then Section(properties) else []) + s2;
    assert SubscribeBody(protocol, mid, topics, byte, properties) == Uint16(mid) + s1;
    Uint16RoundTrip(mid, s1);
    NoIdentifier();
    if protocol == V5 {
      SectionRoundTrip(Command.Subscribe, properties, s2);
    } else {
      assert s1 == s2;
    }
    FiltersRoundTrip(protocol, bridge, topics, byte);
  }
}
