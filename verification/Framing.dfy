/** Packet framing (section 2.1): one-shot, byte by byte, and what cuts change. */
module Framing {
  import opened Basics
  import Varint

  /** A dispatched packet: its command byte, and the bytes behind the fixed header. */
  datatype Packet = Packet(command: Byte, body: seq<Byte>)

  const MAX_LENGTH_BYTES := 4

  // ---------- The one-shot parser ----------

  /** The remaining length at the start of `s`: unlike variable byte integers elsewhere, an
      overlong form is accepted. */
  datatype LengthField = NeedMore | TooLong | Known(length: nat, bytes: nat)

  function ParseLength(s: seq<Byte>, count: nat, mult: nat, length: nat): LengthField
    decreases |s|
  {
    if s == [] then NeedMore
    else if count == MAX_LENGTH_BYTES then TooLong
    else
      var length' := length + s[0] % 0x80 * mult;
      if s[0] >= 0x80 then ParseLength(s[1..], count + 1, mult * 0x80, length') else Known(length', count + 1)
  }

  /** Section 2.1.4, read off the bytes: the length is malformed exactly if four bytes each announce another
      one and that is there, it is unfinished exactly if all of at most four bytes do, and otherwise it is
      what the bytes up to the first that does not are worth. */
  lemma {:induction false} LengthFieldIs(s: seq<Byte>, count: nat, mult: nat, length: nat)
    requires count <= 4
    ensures var left := 4 - count;
            match ParseLength(s, count, mult, length)
            case TooLong => |s| > left && forall i :: 0 <= i < left ==> s[i] >= 0x80
            case NeedMore => |s| <= left && forall i :: 0 <= i < |s| ==> s[i] >= 0x80
            case Known(len, bytes) =>
              count < bytes <= 4 && bytes - count <= |s| && s[bytes - count - 1] < 0x80 &&
              (forall i :: 0 <= i < bytes - count - 1 ==> s[i] >= 0x80) &&
              len == length + mult * Varint.Worth(s[..bytes - count])
    decreases |s|
  {
    if s != [] && count < 4 {
      var t, digit := s[1..], s[0] % 0x80;
      assert forall i :: 0 < i < |s| ==> s[i] == t[i - 1];
      if s[0] >= 0x80 {
        LengthFieldIs(t, count + 1, mult * 0x80, length + digit * mult);
        match ParseLength(s, count, mult, length)
        case TooLong =>
        case NeedMore =>
        case Known(len, bytes) =>
          var n := bytes - count;
          assert s[..n][0] == s[0] && s[..n][1..] == t[..n - 1];
          WorthStep(mult, digit, Varint.Worth(t[..n - 1]));
      } else {
        assert s[..1][0] == s[0] && s[..1][1..] == [];
        WorthStep(mult, digit, 0);
      }
    }
  }

  lemma WorthStep(mult: nat, digit: nat, rest: nat)
    ensures digit * mult + mult * 0x80 * rest == mult * (digit + 0x80 * rest)
  {}

  /** Where the first packet of a stream ends, once its length is known. */
  function FirstEnd(s: seq<Byte>): (end: nat)
    requires s != [] && ParseLength(s[1..], 0, 1, 0).Known?
    ensures end > 0
  {
    var l := ParseLength(s[1..], 0, 1, 0);
    1 + l.bytes + l.length
  }

  /** The packet with which a stream begins. */
  function FirstOf(s: seq<Byte>): Packet
    requires s != [] && ParseLength(s[1..], 0, 1, 0).Known? && FirstEnd(s) <= |s|
  {
    Packet(s[0], s[1 + ParseLength(s[1..], 0, 1, 0).bytes..FirstEnd(s)])
  }

  /** What a stream amounts to: its complete packets, and whether the length of the packet behind
      them is malformed. */
  datatype Stream = Stream(packets: seq<Packet>, malformed: bool)

  function ParseStream(s: seq<Byte>): Stream
    decreases |s|
  {
    if s == [] then Stream([], false)
    else
      match ParseLength(s[1..], 0, 1, 0)
      case NeedMore => Stream([], false)
      case TooLong => Stream([], true)
      case Known(_, _) =>
        if FirstEnd(s) > |s| then Stream([], false)
        else
          var tail := ParseStream(s[FirstEnd(s)..]);
          Stream([FirstOf(s)] + tail.packets, tail.malformed)
  }

  // ---------- The reader, byte by byte ----------

  /** How far the packet in progress is. A command byte of zero is stored like "no command yet":
      `Await` and `AwaitBody` are the states in which the reader will read a command byte even
      though, in the last case, it is in the middle of a body. */
  datatype Frame =
    | Await(count: nat, mult: nat, length: nat)
    | AwaitBody(length: nat, got: seq<Byte>)
    | Length(command: Byte, count: nat, mult: nat, length: nat)
    | Body(command: Byte, length: nat, got: seq<Byte>)
    | Broken

  const START := Await(0, 1, 0)

  datatype Progress = Progress(frame: Frame, packets: seq<Packet>)

  /** A body that has all its bytes is dispatched, and the reader starts afresh. */
  function Settle(command: Byte, length: nat, got: seq<Byte>): Progress {
    if |got| == length then Progress(START, [Packet(command, got)]) else Progress(Body(command, length, got), [])
  }

  /** One byte within one call of the reader. */
  function Feed(f: Frame, b: Byte): Progress {
    match f
    case Await(count, mult, length) => Progress(Length(b, count, mult, length), [])
    case AwaitBody(length, got) => Progress(Body(b, length, got), [])
    case Length(command, count, mult, length) =>
      if count == MAX_LENGTH_BYTES then Progress(Broken, [])
      else
        var length' := length + b % 0x80 * mult;
        if b >= 0x80 then Progress(Length(command, count + 1, mult * 0x80, length'), [])
        else Settle(command, length', [])
    case Body(command, length, got) => Settle(command, length, got + [b])
    case Broken => Progress(Broken, [])
  }

  /** The bytes that one call reads. */
  function FeedAll(f: Frame, s: seq<Byte>): Progress
    decreases |s|
  {
    if s == [] then Progress(f, [])
    else
      var first := Feed(f, s[0]);
      var rest := FeedAll(first.frame, s[1..]);
      Progress(rest.frame, first.packets + rest.packets)
  }

  /** The command byte in hand is zero. */
  predicate HoldsZero(f: Frame) {
    (f.Length? || f.Body?) && f.command == 0
  }

  /** A call that returns keeps only the fields: a zero command byte is forgotten. */
  function Pause(f: Frame): Frame {
    if !HoldsZero(f) then f
    else if f.Length? then Await(f.count, f.mult, f.length)
    else AwaitBody(f.length, f.got)
  }

  /** A run of calls, each of which reads one chunk. */
  function Run(f: Frame, chunks: seq<seq<Byte>>): Progress
    decreases |chunks|
  {
    if chunks == [] then Progress(f, [])
    else
      var first := FeedAll(f, chunks[0]);
      var rest := Run(Pause(first.frame), chunks[1..]);
      Progress(rest.frame, first.packets + rest.packets)
  }

  function Concat(chunks: seq<seq<Byte>>): seq<Byte> {
    if chunks == [] then [] else chunks[0] + Concat(chunks[1..])
  }

  lemma {:induction false} FeedAllAppend(f: Frame, s: seq<Byte>, t: seq<Byte>)
    ensures var a := FeedAll(f, s);
            var b := FeedAll(a.frame, t);
            FeedAll(f, s + t) == Progress(b.frame, a.packets + b.packets)
    decreases |s|
  {
    hide Feed;
    if s == [] {
      assert s + t == t;
    } else {
      assert (s + t)[1..] == s[1..] + t;
      FeedAllAppend(Feed(f, s[0]).frame, s[1..], t);
    }
  }

  lemma FeedOne(f: Frame, b: Byte)
    ensures FeedAll(f, [b]) == Feed(f, b)
  {
    var first := Feed(f, b);
    assert [b][1..] == [] && FeedAll(first.frame, []) == Progress(first.frame, []);
    assert first.packets + [] == first.packets;
  }

  lemma {:induction false} FeedAllBroken(s: seq<Byte>)
    ensures FeedAll(Broken, s) == Progress(Broken, [])
  {
    if s != [] { FeedAllBroken(s[1..]); }
  }

  lemma {:induction false} FeedBody(command: Byte, length: nat, got: seq<Byte>, s: seq<Byte>)
    requires |got| < length && |got| + |s| <= length && s != []
    ensures FeedAll(Body(command, length, got), s) == Settle(command, length, got + s)
    decreases |s|
  {
    if |s| == 1 {
      assert s == [s[0]];
      FeedOne(Body(command, length, got), s[0]);
    } else {
      FeedBody(command, length, got + [s[0]], s[1..]);
      assert got + [s[0]] + s[1..] == got + s;
    }
  }

  // ---------- Reading byte by byte is one-shot parsing ----------

  /** The frame after an unfinished length or body never holds a packet back. */
  lemma {:induction false} LengthPhase(command: Byte, count: nat, mult: nat, length: nat, s: seq<Byte>)
    requires count <= MAX_LENGTH_BYTES
    ensures var r := FeedAll(Length(command, count, mult, length), s);
            match ParseLength(s, count, mult, length)
            case NeedMore => r.frame.Length? && r.packets == []
            case TooLong => r == Progress(Broken, [])
            case Known(len, bytes) =>
              count < bytes <= count + |s| &&
              var first := Settle(command, len, []);
              var rest := FeedAll(first.frame, s[bytes - count..]);
              r == Progress(rest.frame, first.packets + rest.packets)
    decreases |s|
  {
    if s != [] {
      if count == MAX_LENGTH_BYTES {
        FeedAllBroken(s[1..]);
      } else if s[0] >= 0x80 {
        hide Settle;
        LengthPhase(command, count + 1, mult * 0x80, length + s[0] % 0x80 * mult, s[1..]);
        match ParseLength(s, count, mult, length)
        case NeedMore =>
        case TooLong =>
        case Known(len, bytes) => assert s[1..][bytes - count - 1..] == s[bytes - count..];
      }
    }
  }

  /** Feeding a stream byte by byte dispatches the packets of the one-shot parser and reaches the
      same framing error. */
  lemma {:induction false} FeedAllIsParseStream(s: seq<Byte>)
    ensures FeedAll(START, s).packets == ParseStream(s).packets
    ensures FeedAll(START, s).frame.Broken? <==> ParseStream(s).malformed
    decreases |s|
  {
    hide FeedAll, ParseStream, ParseLength;
    if s == [] {
      EmptyStream();
    } else if ParseLength(s[1..], 0, 1, 0).Known? && FirstEnd(s) <= |s| {
      FirstPacketFed(s);
      FirstPacketParsed(s);
      FeedAllIsParseStream(s[FirstEnd(s)..]);
    } else {
      NoPacket(s);
    }
  }

  lemma EmptyStream()
    ensures FeedAll(START, []) == Progress(START, []) && ParseStream([]) == Stream([], false)
  {}

  lemma FirstPacketParsed(s: seq<Byte>)
    requires s != [] && ParseLength(s[1..], 0, 1, 0).Known? && FirstEnd(s) <= |s|
    ensures var tail := ParseStream(s[FirstEnd(s)..]);
            ParseStream(s) == Stream([FirstOf(s)] + tail.packets, tail.malformed)
  {
    hide ParseLength;
  }

  lemma FirstPacketFed(s: seq<Byte>)
    requires s != [] && ParseLength(s[1..], 0, 1, 0).Known? && FirstEnd(s) <= |s|
    ensures var after := FeedAll(START, s[FirstEnd(s)..]);
            FeedAll(START, s) == Progress(after.frame, [FirstOf(s)] + after.packets)
  {
    hide ParseLength, FeedAll, Feed, Settle, ParseStream;
    var l := ParseLength(s[1..], 0, 1, 0);
    CommandPhase(s);
    LengthPhase(s[0], 0, 1, 0, s[1..]);
    var tail := s[1 + l.bytes..];
    assert s[1..][l.bytes..] == tail;
    BodyPhase(s[0], l.length, tail);
    assert tail[l.length..] == s[FirstEnd(s)..] && Packet(s[0], tail[..l.length]) == FirstOf(s) by {
      assert tail[..l.length] == s[1 + l.bytes..FirstEnd(s)];
    }
  }

  lemma {:induction false} NoPacket(s: seq<Byte>)
    requires s != []
    requires var l := ParseLength(s[1..], 0, 1, 0); l.Known? ==> FirstEnd(s) > |s|
    ensures FeedAll(START, s).packets == [] && ParseStream(s).packets == []
    ensures FeedAll(START, s).frame.Broken? <==> ParseStream(s).malformed
  {
    hide ParseLength, FeedAll, Feed;
    CommandPhase(s);
    LengthPhase(s[0], 0, 1, 0, s[1..]);
    var l := ParseLength(s[1..], 0, 1, 0);
    if l.Known? {
      assert s[1..][l.bytes..] == s[1 + l.bytes..];
      ShortBodyPhase(s[0], l.length, s[1 + l.bytes..]);
    }
  }

  lemma CommandPhase(s: seq<Byte>)
    requires s != []
    ensures FeedAll(START, s) == FeedAll(Length(s[0], 0, 1, 0), s[1..])
  {
    var r := FeedAll(Length(s[0], 0, 1, 0), s[1..]);
    assert Feed(START, s[0]) == Progress(Length(s[0], 0, 1, 0), []);
    assert [] + r.packets == r.packets;
  }

  lemma {:induction false} BodyPhase(command: Byte, length: nat, tail: seq<Byte>)
    requires length <= |tail|
    ensures var first := Settle(command, length, []);
            var rest := FeedAll(first.frame, tail);
            var after := FeedAll(START, tail[length..]);
            rest.frame == after.frame &&
            first.packets + rest.packets == [Packet(command, tail[..length])] + after.packets
  {
    hide FeedAll, Feed;
    var head, behind := tail[..length], tail[length..];
    assert tail == head + behind && |head| == length;
    if length == 0 {
      assert behind == tail;
    } else {
      FeedBody(command, length, [], head);
      assert [] + head == head;
      FeedAllAppend(Body(command, length, []), head, behind);
      assert [] + FeedAll(Body(command, length, []), tail).packets == FeedAll(Body(command, length, []), tail).packets;
    }
  }

  lemma ShortBodyPhase(command: Byte, length: nat, tail: seq<Byte>)
    requires length > |tail|
    ensures var rest := FeedAll(Settle(command, length, []).frame, tail);
            Settle(command, length, []).packets == [] && rest.packets == [] && rest.frame.Body?
  {
    if tail != [] {
      FeedBody(command, length, [], tail);
      assert [] + tail == tail;
    }
  }

  // ---------- Zero command bytes ----------

  /** A packet of the stream, complete or not, begins with a zero byte that is not the last byte. */
  predicate ZeroCommand(s: seq<Byte>)
    decreases |s|
  {
    s != [] &&
    ((s[0] == 0 && |s| > 1) ||
     (ParseLength(s[1..], 0, 1, 0).Known? && FirstEnd(s) <= |s| && ZeroCommand(s[FirstEnd(s)..])))
  }

  /** A known length stays known when more bytes follow. */
  lemma {:induction false} LengthStable(a: seq<Byte>, b: seq<Byte>, count: nat, mult: nat, length: nat)
    requires ParseLength(a, count, mult, length).Known?
    ensures ParseLength(a + b, count, mult, length) == ParseLength(a, count, mult, length)
    decreases |a|
  {
    assert (a + b)[0] == a[0] && (a + b)[1..] == a[1..] + b;
    if a[0] >= 0x80 {
      LengthStable(a[1..], b, count + 1, mult * 0x80, length + a[0] % 0x80 * mult);
    }
  }

  /** Until a packet is dispatched, the command byte in hand stays. */
  lemma {:induction false} KeepsCommand(f: Frame, s: seq<Byte>)
    requires f.Length? || f.Body?
    requires FeedAll(f, s).packets == []
    ensures var g := FeedAll(f, s).frame; g.Broken? || ((g.Length? || g.Body?) && g.command == f.command)
    decreases |s|
  {
    if s != [] {
      var g := Feed(f, s[0]).frame;
      if g.Broken? {
        FeedAllBroken(s[1..]);
      } else {
        KeepsCommand(g, s[1..]);
      }
    }
  }

  /** A prefix of the stream that holds its first packet. */
  lemma FirstOfPrefix(s: seq<Byte>, k: nat)
    requires 0 < k <= |s| && ParseLength(s[..k][1..], 0, 1, 0).Known?
    ensures ParseLength(s[1..], 0, 1, 0) == ParseLength(s[..k][1..], 0, 1, 0) && FirstEnd(s) == FirstEnd(s[..k])
  {
    hide ParseLength;
    assert s[1..] == s[..k][1..] + s[k..];
    LengthStable(s[..k][1..], s[k..], 0, 1, 0);
  }

  /** A zero command byte is in hand at position `k` exactly if a packet begins with one before. */
  lemma {:induction false} HeldZeroIsCommand(s: seq<Byte>, k: nat)
    requires k < |s| && HoldsZero(FeedAll(START, s[..k]).frame)
    ensures ZeroCommand(s)
    decreases |s|
  {
    hide FeedAll, ParseLength;
    var t := s[..k];
    if k == 0 {
      EmptyStream();
    } else if ParseLength(t[1..], 0, 1, 0).Known? && FirstEnd(t) <= k {
      FirstOfPrefix(s, k);
      FirstPacketFed(t);
      var e := FirstEnd(s);
      assert t[e..] == s[e..][..k - e];
      HeldZeroIsCommand(s[e..], k - e);
    } else {
      NoPacket(t);
      CommandPhase(t);
      KeepsCommand(Length(t[0], 0, 1, 0), t[1..]);
    }
  }

  lemma {:induction false} CommandIsHeldZero(s: seq<Byte>)
    requires ZeroCommand(s)
    ensures ZeroInside(s)
    decreases |s|
  {
    hide FeedAll, ParseLength;
    if s[0] == 0 && |s| > 1 {
      FeedOne(START, 0);
      assert s[..1] == [0] && HoldsZero(FeedAll(START, s[..1]).frame);
    } else {
      var e := FirstEnd(s);
      CommandIsHeldZero(s[e..]);
      var k :| 0 <= k < |s[e..]| && HoldsZero(FeedAll(START, s[e..][..k]).frame);
      PrefixHoldsFirst(s, e + k);
      FirstPacketFed(s[..e + k]);
      assert s[..e + k][e..] == s[e..][..k];
      assert HoldsZero(FeedAll(START, s[..e + k]).frame);
    }
  }

  /** A prefix that reaches the end of the first packet has the same first packet. */
  lemma PrefixHoldsFirst(s: seq<Byte>, n: nat)
    requires s != [] && ParseLength(s[1..], 0, 1, 0).Known? && FirstEnd(s) <= n <= |s|
    ensures ParseLength(s[..n][1..], 0, 1, 0) == ParseLength(s[1..], 0, 1, 0)
  {
    hide ParseLength;
    var l := ParseLength(s[1..], 0, 1, 0);
    LengthUsesItsBytes(s[1..], 0, 1, 0);
    assert s[1..][..l.bytes] + s[1 + l.bytes..n] == s[..n][1..];
    LengthStable(s[1..][..l.bytes], s[1 + l.bytes..n], 0, 1, 0);
  }

  /** A length is decided by the bytes it takes. */
  lemma {:induction false} LengthUsesItsBytes(s: seq<Byte>, count: nat, mult: nat, length: nat)
    requires ParseLength(s, count, mult, length).Known?
    ensures var l := ParseLength(s, count, mult, length);
            count < l.bytes <= count + |s| && ParseLength(s[..l.bytes - count], count, mult, length) == l
    decreases |s|
  {
    if s[0] >= 0x80 {
      LengthUsesItsBytes(s[1..], count + 1, mult * 0x80, length + s[0] % 0x80 * mult);
      var n := ParseLength(s, count, mult, length).bytes - count;
      assert s[..n][0] == s[0] && s[..n][1..] == s[1..][..n - 1];
    }
  }

  // ---------- Chunk independence, and exactly when it holds ----------

  /** Within the stream, a zero command byte is in hand while more bytes are to come. */
  ghost predicate ZeroInside(s: seq<Byte>) {
    exists k :: 0 <= k < |s| && HoldsZero(FeedAll(START, s[..k]).frame)
  }

  /** However a stream is cut into calls, the frame and the packets are those of one call. */
  ghost predicate ChunkIndependent(s: seq<Byte>) {
    forall chunks: seq<seq<Byte>> :: Concat(chunks) <= s ==>
      var whole := FeedAll(START, Concat(chunks));
      Run(START, chunks) == Progress(Pause(whole.frame), whole.packets)
  }

  lemma {:induction false} RunSnoc(f: Frame, chunks: seq<seq<Byte>>, last: seq<Byte>)
    ensures var a := Run(f, chunks);
            var b := FeedAll(a.frame, last);
            Run(f, chunks + [last]) == Progress(Pause(b.frame), a.packets + b.packets)
    decreases |chunks|
  {
    hide FeedAll, Pause;
    if chunks == [] {
      assert chunks + [last] == [last] && [last][1..] == [];
    } else {
      assert (chunks + [last])[1..] == chunks[1..] + [last];
      RunSnoc(Pause(FeedAll(f, chunks[0]).frame), chunks[1..], last);
    }
  }

  lemma {:induction false} ConcatSnoc(chunks: seq<seq<Byte>>, last: seq<Byte>)
    ensures Concat(chunks + [last]) == Concat(chunks) + last
  {
    if chunks == [] {
      assert chunks + [last] == [last] && [last][1..] == [];
      assert [last][0] + Concat([last][1..]) == last + [];
    } else {
      assert (chunks + [last])[1..] == chunks[1..] + [last];
      ConcatSnoc(chunks[1..], last);
    }
  }

  /** Without a zero command byte in hand at the end of a call, calls may end anywhere. */
  lemma {:induction false} RunIsOneCall(chunks: seq<seq<Byte>>, s: seq<Byte>)
    requires Concat(chunks) <= s && !ZeroInside(s)
    ensures var whole := FeedAll(START, Concat(chunks));
            Run(START, chunks) == Progress(Pause(whole.frame), whole.packets)
    decreases |chunks|
  {
    if chunks != [] {
      var init, last := chunks[..|chunks| - 1], chunks[|chunks| - 1];
      assert chunks == init + [last];
      ConcatSnoc(init, last);
      assert Concat(init) <= s;
      RunIsOneCall(init, s);
      RunSnoc(START, init, last);
      FeedAllAppend(START, Concat(init), last);
      var f := FeedAll(START, Concat(init)).frame;
      if last == [] {
        assert Concat(init) + [] == Concat(init);
        assert FeedAll(Pause(f), last) == Progress(Pause(f), []) && FeedAll(f, last) == Progress(f, []);
        assert Pause(Pause(f)) == Pause(f);
      } else {
        assert s[..|Concat(init)|] == Concat(init) && |Concat(init)| < |s|;
        assert !HoldsZero(f);
      }
    }
  }

  /** A call that ends with a zero command byte in hand takes the next byte for the command: after
      that byte the two cuts differ. */
  lemma {:induction false} ZeroCommandSplits(s: seq<Byte>, k: nat)
    requires k < |s| && HoldsZero(FeedAll(START, s[..k]).frame)
    ensures var chunks := [s[..k], [s[k]]];
            Concat(chunks) == s[..k + 1] &&
            var whole := FeedAll(START, s[..k + 1]);
            Run(START, chunks) != Progress(Pause(whole.frame), whole.packets)
  {
    var a, last := s[..k], [s[k]];
    var chunks := [] + [a] + [last];
    assert chunks == [a, last];
    ConcatSnoc([], a);
    ConcatSnoc([] + [a], last);
    assert Concat([]) + a == a && s[..k + 1] == a + last;
    RunSnoc(START, [], a);
    RunSnoc(START, [] + [a], last);
    FeedAllAppend(START, a, last);
    var before := FeedAll(START, a);
    FeedOne(before.frame, s[k]);
    FeedOne(Pause(before.frame), s[k]);
    assert [] + before.packets == before.packets && before.packets + [] == before.packets;
    var x, y := Feed(before.frame, s[k]), Feed(Pause(before.frame), s[k]);
    assert y.packets == [];
    assert Pause(x.frame) != Pause(y.frame) || x.packets != [];
    if x.packets != [] {
      assert |before.packets + x.packets| > |before.packets|;
    }
  }

  /** A zero command byte is in hand within a stream exactly if one begins a packet of it. */
  lemma {:induction false} ZeroInsideIff(s: seq<Byte>)
    ensures ZeroInside(s) <==> ZeroCommand(s)
  {
    hide FeedAll, ZeroCommand;
    if ZeroCommand(s) {
      CommandIsHeldZero(s);
    }
    if ZeroInside(s) {
      var k :| 0 <= k < |s| && HoldsZero(FeedAll(START, s[..k]).frame);
      HeldZeroIsCommand(s, k);
    }
  }

  /** Exactly the streams in which no packet begins with a zero command byte (before the last byte)
      are read alike however they are cut. */
  lemma {:induction false} ChunkIndependence(s: seq<Byte>)
    ensures ChunkIndependent(s) <==> !ZeroCommand(s)
  {
    hide ZeroCommand;
    ZeroInsideIff(s);
    if !ZeroInside(s) {
      forall chunks: seq<seq<Byte>> | Concat(chunks) <= s
        ensures var whole := FeedAll(START, Concat(chunks));
                Run(START, chunks) == Progress(Pause(whole.frame), whole.packets)
      {
        RunIsOneCall(chunks, s);
      }
    } else {
      var k :| 0 <= k < |s| && HoldsZero(FeedAll(START, s[..k]).frame);
      ZeroCommandSplits(s, k);
      var chunks := [s[..k], [s[k]]];
      assert Concat(chunks) <= s;
    }
  }

  /** Any two ways of cutting such a stream dispatch the packets of the one-shot parser and agree on
      whether the framing is broken. */
  lemma {:induction false} CutsDispatchTheStream(chunks: seq<seq<Byte>>)
    requires !ZeroCommand(Concat(chunks))
    ensures var r := Run(START, chunks);
            r.packets == ParseStream(Concat(chunks)).packets &&
            (r.frame.Broken? <==> ParseStream(Concat(chunks)).malformed)
  {
    ZeroInsideIff(Concat(chunks));
    RunIsOneCall(chunks, Concat(chunks));
    FeedAllIsParseStream(Concat(chunks));
  }
}
