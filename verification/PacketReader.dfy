/** The resumable reader `packet__read`: it can stop at any byte and goes on from its fields. Each
    call is proved to do what `Framing` says of the bytes it takes, and any number of calls to
    dispatch the packets of the one-shot parser, with a protocol error exactly where that parser
    finds one. */
module PacketReader {
  import opened Basics
  import opened Framing

  /** What one `net__read` yields. */
  datatype ReadResult = Data(bytes: seq<Byte>) | WouldBlock | Eof | Reset | OtherError

  /** One entry of a socket's behaviour: how many bytes it is ready to hand out, or why it hands
      out none. */
  datatype Readiness = Ready(n: nat) | NotReady(why: ReadResult)

  /** A socket: the bytes that are still to arrive, and an arbitrary plan of how they do. */
  class Net {
    var input: seq<Byte>
    var plan: seq<Readiness>
    /** What the reads came to. */
    ghost var results: seq<ReadResult>

    constructor (input: seq<Byte>, plan: seq<Readiness>)
      ensures this.input == input && this.plan == plan && results == []
    {
      this.input, this.plan, results := input, plan, [];
    }

    method Read(max: nat) returns (r: ReadResult)
      requires max > 0
      modifies this
      ensures r.Data? ==> 1 <= |r.bytes| <= max && r.bytes <= old(input) && input == old(input)[|r.bytes|..]
      ensures !r.Data? ==> input == old(input)
      ensures results == old(results) + [r]
    {
      r := WouldBlock;
      if plan != [] {
        var next := plan[0];
        plan := plan[1..];
        if next.NotReady? {
          r := if next.why.Data? then WouldBlock else next.why;
        } else if input != [] {
          var n := if next.n == 0 then 1 else next.n;
          n := if n > max then max else n;
          n := if n > |input| then |input| else n;
          r := Data(input[..n]);
          input := input[n..];
        }
      }
      results := results + [r];
    }
  }

  /** The return code when a read of the fixed header ends like this. */
  function ErrorOf(r: ReadResult): Rc {
    match r
    case Eof => ConnLost
    case Reset => ConnLost
    case OtherError => Errno
    case _ => Success
  }

  /** And when a read of the body does: there only `errno` is looked at, which `net__read` clears and
      an end of file leaves clear. */
  function BodyErrorOf(r: ReadResult): Rc {
    if r.Eof? then Errno else ErrorOf(r)
  }

  /** The code of a call that was stopped by `r` with a packet in progress as far as `f`. */
  function StopCode(f: Frame, r: ReadResult): Rc {
    if f.Body? then BodyErrorOf(r) else ErrorOf(r)
  }

  /** A reader that has to wait reports success; whatever else stops it is an error, an end of the stream
      in the fixed header and a reset being a lost connection. */
  lemma StopCodes(f: Frame, r: ReadResult)
    ensures StopCode(f, r) == Success <==> r.Data? || r.WouldBlock?
    ensures StopCode(f, r) == ConnLost <==> r.Reset? || (r.Eof? && !f.Body?)
  {}

  /** The results from position `a` on are all data. */
  ghost predicate DataFrom(results: seq<ReadResult>, a: nat) {
    a <= |results| && forall i :: a <= i < |results| ==> results[i].Data?
  }

  /** They are, but for the last one. */
  ghost predicate StoppedFrom(results: seq<ReadResult>, a: nat) {
    a < |results| && !results[|results| - 1].Data? && forall i :: a <= i < |results| - 1 ==> results[i].Data?
  }

  /** A call reads on until a packet is complete, the length is too long, or a read gives nothing, and
      then answers with that read's code. */
  ghost predicate ReadsOn(p: Progress, results: seq<ReadResult>, a: nat, rc: Rc) {
    if DataFrom(results, a) then p.frame.Broken? || p.packets != []
    else
      StoppedFrom(results, a) && p.packets == [] && !p.frame.Broken? && rc == StopCode(p.frame, results[|results| - 1])
  }

  lemma StoppedReads(p: Progress, results: seq<ReadResult>, a: nat)
    requires StoppedFrom(results, a) && p.packets == [] && !p.frame.Broken?
    ensures !DataFrom(results, a) && ReadsOn(p, results, a, StopCode(p.frame, results[|results| - 1]))
  {}

  lemma DoneReads(p: Progress, results: seq<ReadResult>, a: nat, rc: Rc)
    requires DataFrom(results, a) && (p.frame.Broken? || p.packets != [])
    ensures ReadsOn(p, results, a, rc)
  {}

  /** The reads from the end of `before` on, seen from position `a` on. */
  lemma ReadsOnFrom(before: seq<ReadResult>, p: Progress, results: seq<ReadResult>, a: nat, rc: Rc)
    requires before <= results && DataFrom(before, a) && ReadsOn(p, results, |before|, rc)
    ensures ReadsOn(p, results, a, rc)
  {
    hide DataFrom, StoppedFrom;
    ResultsOn(before, results, a);
  }

  /** What the results of further reads make of those so far. */
  lemma ResultsOn(before: seq<ReadResult>, after: seq<ReadResult>, a: nat)
    requires before <= after && DataFrom(before, a)
    ensures DataFrom(after, |before|) ==> DataFrom(after, a)
    ensures StoppedFrom(after, |before|) ==> StoppedFrom(after, a) && !DataFrom(after, a)
  {}

  lemma NoResults(results: seq<ReadResult>)
    ensures DataFrom(results, |results|)
  {}

  class Reader {
    var sockOpen: bool
    var connectPending: bool
    var command: Byte
    var remainingCount: int
    var remainingMult: nat
    var remainingLength: nat
    var payload: array<Byte>
    var toProcess: nat
    var pos: nat
    /** The packets handed to `handle__packet`, in order. */
    var dispatched: seq<Packet>

    constructor ()
      ensures Valid() && Abs() == START && dispatched == [] && sockOpen && !connectPending && fresh(payload)
    {
      sockOpen, connectPending := true, false;
      command, remainingCount, remainingMult, remainingLength := 0, 0, 1, 0;
      payload := new Byte[0];
      toProcess, pos := 0, 0;
      dispatched := [];
    }

    /** A body in progress: what was read and what is to be read make up the remaining length. */
    ghost predicate Valid()
      reads this
    {
      && remainingCount >= -MAX_LENGTH_BYTES
      && (remainingCount > 0 ==> payload.Length == remainingLength && pos + toProcess == remainingLength && toProcess > 0)
      && (remainingCount <= 0 ==> toProcess == 0 && pos == 0)
    }

    function Abs(): Frame
      reads this, payload
      requires Valid()
    {
      if command == 0 then
        if remainingCount <= 0 then Await(-remainingCount, remainingMult, remainingLength)
        else AwaitBody(remainingLength, payload[..pos])
      else
        if remainingCount <= 0 then Length(command, -remainingCount, remainingMult, remainingLength)
        else Body(command, remainingLength, payload[..pos])
    }

    /** `packet__cleanup` */
    method Cleanup()
      modifies this
      ensures Valid() && Abs() == START && fresh(payload)
      ensures dispatched == old(dispatched) && sockOpen == old(sockOpen) && connectPending == old(connectPending)
    {
      command, remainingCount, remainingMult, remainingLength := 0, 0, 1, 0;
      payload := new Byte[0];
      toProcess, pos := 0, 0;
    }

    /** `packet__read`. `chunk` names the bytes that this call took from the socket; `handlerRc`
        is what `handle__packet` answers if a packet is complete. A call reads on until a packet is
        complete, the length is too long, or the socket gives nothing. */
    method PacketRead(net: Net, handlerRc: Rc) returns (rc: Rc, ghost chunk: seq<Byte>)
      requires Valid()
      modifies this, payload, net
      ensures chunk <= old(net.input) && net.input == old(net.input)[|chunk|..]
      ensures var r := FeedAll(old(Abs()), chunk);
              dispatched == old(dispatched) + r.packets && |r.packets| <= 1 &&
              (r.packets != [] ==> rc == handlerRc) &&
              if r.frame.Broken? then rc == Protocol
              else Valid() && Abs() == Pause(r.frame) && (payload == old(payload) || fresh(payload))
      ensures if !old(sockOpen) || connectPending then
                rc == (if old(sockOpen) then Success else NoConn) && chunk == [] && net.results == old(net.results)
              else ReadsOn(FeedAll(old(Abs()), chunk), net.results, |old(net.results)|, rc)
      ensures rc == Protocol ==> FeedAll(old(Abs()), chunk).frame.Broken? || handlerRc == Protocol
    {
      hide Feed, FeedAll, Settle, DataFrom, StoppedFrom, ReadsOn;
      chunk := [];
      ghost var f0 := Abs();
      FeedNothing(f0);
      NoResults(net.results);
      if !sockOpen { return NoConn, chunk; }
      if connectPending { return Success, chunk; }
      if command == 0 {
        var r := net.Read(1);
        FirstResult(old(net.results), r);
        if !r.Data? {
          StoppedReads(FeedAll(f0, chunk), net.results, |old(net.results)|);
          return ErrorOf(r), chunk;
        }
        command := r.bytes[0];
        FeedCommand(f0, r.bytes);
        chunk := r.bytes;
      }
      ghost var taken, before := [], net.results;
      rc, taken := ReadRest(net, handlerRc, f0, chunk);
      ReadsOnFrom(before, FeedAll(f0, chunk + taken), net.results, |old(net.results)|, rc);
      Taken(old(net.input), chunk, taken);
      chunk := chunk + taken;
    }

    /** The fixed header's length, unless it is known, and the body. */
    method ReadRest(net: Net, handlerRc: Rc, ghost f0: Frame, ghost chunk: seq<Byte>)
      returns (rc: Rc, ghost taken: seq<Byte>)
      requires Valid()
      requires FeedAll(f0, chunk) == Progress(
                 if remainingCount <= 0 then Length(command, -remainingCount, remainingMult, remainingLength)
                 else Body(command, remainingLength, payload[..pos]), [])
      modifies this, payload, net
      ensures taken <= old(net.input) && net.input == old(net.input)[|taken|..]
      ensures var r := FeedAll(f0, chunk + taken);
              dispatched == old(dispatched) + r.packets && |r.packets| <= 1 &&
              (r.packets != [] ==> rc == handlerRc) &&
              if r.frame.Broken? then rc == Protocol
              else Valid() && Abs() == Pause(r.frame) && (payload == old(payload) || fresh(payload))
      ensures sockOpen == old(sockOpen) && connectPending == old(connectPending)
      ensures old(net.results) <= net.results
      ensures ReadsOn(FeedAll(f0, chunk + taken), net.results, |old(net.results)|, rc)
      ensures rc == Protocol ==> FeedAll(f0, chunk + taken).frame.Broken? || handlerRc == Protocol
    {
      hide Feed, FeedAll, Settle, DataFrom, StoppedFrom, ReadsOn;
      taken := [];
      assert chunk + taken == chunk;
      NoResults(net.results);
      if remainingCount <= 0 {
        rc, taken := ReadLength(net, f0, chunk);
        if rc != Success || remainingCount <= 0 {
          if remainingCount < -MAX_LENGTH_BYTES {
            DoneReads(FeedAll(f0, chunk + taken), net.results, |old(net.results)|, rc);
          } else {
            StoppedReads(FeedAll(f0, chunk + taken), net.results, |old(net.results)|);
          }
          return;
        }
        assert payload[..pos] == [];
      } else {
        Unsettled(command, remainingLength, payload[..pos]);
      }
      ghost var more, before := [], net.results;
      rc, more := ReadBody(net, handlerRc, f0, chunk + taken);
      assert chunk + taken + more == chunk + (taken + more);
      Taken(old(net.input), taken, more);
      taken := taken + more;
      ReadsOnFrom(before, FeedAll(f0, chunk + taken), net.results, |old(net.results)|, rc);
    }

    /** The second phase of `packet__read`: the bytes of the remaining length. It ends with a
        positive count when all of them are there. */
    method ReadLength(net: Net, ghost f0: Frame, ghost before: seq<Byte>) returns (rc: Rc, ghost taken: seq<Byte>)
      requires -MAX_LENGTH_BYTES <= remainingCount <= 0 && toProcess == 0 && pos == 0
      requires FeedAll(f0, before) == Progress(Length(command, -remainingCount, remainingMult, remainingLength), [])
      modifies this`remainingCount, this`remainingMult, this`remainingLength, this`payload, this`toProcess, net
      ensures taken <= old(net.input) && net.input == old(net.input)[|taken|..]
      ensures payload == old(payload) || fresh(payload)
      ensures old(net.results) <= net.results
      ensures if -MAX_LENGTH_BYTES <= remainingCount <= 0 then
                StoppedFrom(net.results, |old(net.results)|) && rc == ErrorOf(net.results[|net.results| - 1])
              else DataFrom(net.results, |old(net.results)|)
      ensures remainingCount > 0 ==>
                rc == Success && payload.Length >= remainingLength &&
                (remainingLength > 0 ==> payload.Length == remainingLength) && toProcess == remainingLength &&
                FeedAll(f0, before + taken) == Settle(command, remainingLength, [])
      ensures -MAX_LENGTH_BYTES <= remainingCount <= 0 ==>
                toProcess == 0 && payload == old(payload) &&
                FeedAll(f0, before + taken) ==
                Progress(Length(command, -remainingCount, remainingMult, remainingLength), [])
      ensures remainingCount < -MAX_LENGTH_BYTES ==> rc == Protocol && FeedAll(f0, before + taken) == Progress(Broken, [])
    {
      hide FeedAll, Settle;
      taken := [];
      assert before + taken == before;
      var more := true;
      while more
        invariant taken <= old(net.input) && net.input == old(net.input)[|taken|..]
        invariant toProcess == 0 && payload == old(payload)
        invariant old(net.results) <= net.results && DataFrom(net.results, |old(net.results)|)
        invariant more ==> -MAX_LENGTH_BYTES <= remainingCount <= 0 &&
                           FeedAll(f0, before + taken) ==
                           Progress(Length(command, -remainingCount, remainingMult, remainingLength), [])
        invariant !more ==> -MAX_LENGTH_BYTES <= remainingCount < 0 &&
                            FeedAll(f0, before + taken) == Settle(command, remainingLength, [])
        decreases more, |net.input|
      {
        var r := net.Read(1);
        if !r.Data? { return ErrorOf(r), taken; }
        var byte := r.bytes[0];
        assert r.bytes == [byte];
        FeedLength(f0, before + taken, byte);
        assert before + taken + [byte] == before + (taken + [byte]);
        Taken(old(net.input), taken, [byte]);
        taken := taken + [byte];
        remainingCount := remainingCount - 1;
        if remainingCount < -MAX_LENGTH_BYTES { return Protocol, taken; }
        remainingLength := remainingLength + byte % 0x80 * remainingMult;
        remainingMult := remainingMult * 0x80;
        more := byte >= 0x80;
      }
      remainingCount := remainingCount * -1;
      if remainingLength > 0 {
        payload := new Byte[remainingLength];
        toProcess := remainingLength;
      }
      return Success, taken;
    }

    /** The last phase of `packet__read`: the body, and the dispatch of the complete packet. */
    method ReadBody(net: Net, handlerRc: Rc, ghost f0: Frame, ghost before: seq<Byte>)
      returns (rc: Rc, ghost taken: seq<Byte>)
      requires remainingCount > 0 && pos + toProcess == remainingLength
      requires payload.Length >= remainingLength && (remainingLength > 0 ==> payload.Length == remainingLength)
      requires FeedAll(f0, before) == Settle(command, remainingLength, payload[..pos])
      modifies this, payload, net
      ensures taken <= old(net.input) && net.input == old(net.input)[|taken|..]
      ensures var r := FeedAll(f0, before + taken);
              !r.frame.Broken? &&
              dispatched == old(dispatched) + r.packets && |r.packets| <= 1 && (r.packets != [] ==> rc == handlerRc) &&
              Valid() && Abs() == Pause(r.frame) && (payload == old(payload) || fresh(payload))
      ensures sockOpen == old(sockOpen) && connectPending == old(connectPending) && old(net.results) <= net.results
      ensures ReadsOn(FeedAll(f0, before + taken), net.results, |old(net.results)|, rc)
      ensures rc == Protocol ==> handlerRc == Protocol
    {
      hide FeedAll, Settle, ReadsOn;
      taken := [];
      assert before + taken == before;
      while toProcess > 0
        invariant taken <= old(net.input) && net.input == old(net.input)[|taken|..]
        invariant pos + toProcess == remainingLength && payload == old(payload) && remainingCount > 0
        invariant unchanged(`command, `remainingLength, `dispatched, `sockOpen, `connectPending)
        invariant old(net.results) <= net.results && DataFrom(net.results, |old(net.results)|)
        invariant FeedAll(f0, before + taken) == Settle(command, remainingLength, payload[..pos])
      {
        var r := net.Read(toProcess);
        if !r.Data? {
          Unsettled(command, remainingLength, payload[..pos]);
          StoppedReads(FeedAll(f0, before + taken), net.results, |old(net.results)|);
          return BodyErrorOf(r), taken;
        }
        FeedMoreBody(f0, before + taken, command, remainingLength, payload[..pos], r.bytes);
        assert before + taken + r.bytes == before + (taken + r.bytes);
        Taken(old(net.input), taken, r.bytes);
        Store(r.bytes);
        taken := taken + r.bytes;
        toProcess := toProcess - |r.bytes|;
        pos := pos + |r.bytes|;
      }
      Settled(command, remainingLength, payload[..pos]);
      dispatched := dispatched + [Packet(command, payload[..remainingLength])];
      pos := 0;
      rc := handlerRc;
      DoneReads(FeedAll(f0, before + taken), net.results, |old(net.results)|, rc);
      Cleanup();
    }

    /** The bytes that `net__read` puts into the buffer behind `pos`. */
    method Store(bytes: seq<Byte>)
      requires pos + |bytes| <= payload.Length
      modifies payload
      ensures payload[..pos + |bytes|] == old(payload[..pos]) + bytes
    {
      for i := 0 to |bytes|
        invariant payload[..pos] == old(payload[..pos]) && payload[pos..pos + i] == bytes[..i]
      {
        payload[pos + i] := bytes[i];
        assert payload[pos..pos + i + 1] == payload[pos..pos + i] + [bytes[i]];
      }
      assert payload[..pos + |bytes|] == payload[..pos] + payload[pos..pos + |bytes|];
    }

    /** Any number of calls, as long as they succeed: `chunks` names what each of them took. A protocol
        error is answered exactly if the framing is broken. */
    method ReadLoop(net: Net, calls: nat) returns (rc: Rc, ghost chunks: seq<seq<Byte>>)
      requires Valid()
      modifies this, payload, net
      ensures Concat(chunks) <= old(net.input) && net.input == old(net.input)[|Concat(chunks)|..]
      ensures dispatched == old(dispatched) + Run(old(Abs()), chunks).packets
      ensures Run(old(Abs()), chunks).frame.Broken? || (Valid() && Abs() == Run(old(Abs()), chunks).frame)
      ensures rc == Protocol <==> Run(old(Abs()), chunks).frame.Broken?
      ensures |chunks| <= calls && (rc == Success ==> |chunks| == calls)
    {
      hide FeedAll, Feed;
      chunks := [];
      ghost var f0 := Abs();
      rc := Success;
      var i := 0;
      while i < calls && rc == Success
        invariant rc == Success && |chunks| == i <= calls
        invariant Valid() && Abs() == Run(f0, chunks).frame && !Run(f0, chunks).frame.Broken?
        invariant (payload == old(payload) || fresh(payload))
        invariant Concat(chunks) <= old(net.input) && net.input == old(net.input)[|Concat(chunks)|..]
        invariant dispatched == old(dispatched) + Run(f0, chunks).packets
        decreases calls - i
      {
        ghost var chunk;
        ghost var so := dispatched;
        rc, chunk := PacketRead(net, Success);
        RunSnoc(f0, chunks, chunk);
        ConcatSnoc(chunks, chunk);
        assert old(net.input)[..|Concat(chunks)|] + chunk == Concat(chunks) + chunk;
        chunks := chunks + [chunk];
        i := i + 1;
        if rc != Success { return; }
      }
    }
  }

  lemma FirstResult(before: seq<ReadResult>, r: ReadResult)
    ensures r.Data? ==> DataFrom(before + [r], |before|)
    ensures !r.Data? ==> StoppedFrom(before + [r], |before|) && !DataFrom(before + [r], |before|)
  {}

  lemma FeedNothing(f: Frame)
    ensures FeedAll(f, []) == Progress(f, [])
  {}

  lemma FeedCommand(f: Frame, bytes: seq<Byte>)
    requires (f.Await? || f.AwaitBody?) && |bytes| == 1
    ensures FeedAll(f, bytes) ==
            Progress(if f.Await? then Length(bytes[0], f.count, f.mult, f.length) else Body(bytes[0], f.length, f.got), [])
  {
    assert bytes == [bytes[0]];
    FeedOne(f, bytes[0]);
  }

  /** A byte of the remaining length. */
  lemma FeedLength(f: Frame, s: seq<Byte>, b: Byte)
    requires FeedAll(f, s).frame.Length? && FeedAll(f, s).packets == []
    ensures var a := FeedAll(f, s).frame;
            var length' := a.length + b % 0x80 * a.mult;
            FeedAll(f, s + [b]) ==
            if a.count == MAX_LENGTH_BYTES then Progress(Broken, [])
            else if b >= 0x80 then Progress(Length(a.command, a.count + 1, a.mult * 0x80, length'), [])
            else Settle(a.command, length', [])
  {
    hide FeedAll, Settle;
    FeedAllAppend(f, s, [b]);
    FeedOne(FeedAll(f, s).frame, b);
    var r := Feed(FeedAll(f, s).frame, b);
    assert [] + r.packets == r.packets;
  }

  lemma Unsettled(command: Byte, length: nat, got: seq<Byte>)
    requires |got| < length
    ensures Settle(command, length, got) == Progress(Body(command, length, got), [])
  {}

  lemma Settled(command: Byte, length: nat, got: seq<Byte>)
    requires |got| == length
    ensures Settle(command, length, got) == Progress(START, [Packet(command, got)])
  {}

  /** Taking bytes off the front of a stream twice. */
  lemma Taken(input: seq<Byte>, a: seq<Byte>, b: seq<Byte>)
    requires a <= input && b <= input[|a|..]
    ensures a + b <= input && input[|a|..][|b|..] == input[|a + b|..]
  {
    assert input == a + input[|a|..];
  }

  lemma FeedMoreBody(f: Frame, s: seq<Byte>, command: Byte, length: nat, got: seq<Byte>, bytes: seq<Byte>)
    requires FeedAll(f, s) == Settle(command, length, got)
    requires bytes != [] && |got| + |bytes| <= length
    ensures FeedAll(f, s + bytes) == Settle(command, length, got + bytes)
  {
    FeedAllAppend(f, s, bytes);
    FeedBody(command, length, got, bytes);
    var r := FeedAll(Body(command, length, got), bytes);
    assert [] + r.packets == r.packets;
  }

  /** Chunk independence of the reader itself: a fresh reader over a stream without a zero command
      byte has dispatched, after any number of calls and whatever the socket's plan was, exactly
      the packets of the one-shot parser on the bytes taken so far, and has reported a protocol error
      exactly if the parser finds the stream malformed. */
  method FreshReaderRun(net: Net, calls: nat) returns (rc: Rc, reader: Reader, ghost taken: seq<Byte>)
    requires !ZeroCommand(net.input)
    modifies net
    ensures taken <= old(net.input) && net.input == old(net.input)[|taken|..]
    ensures fresh(reader) && reader.dispatched == ParseStream(taken).packets
    ensures rc == Protocol <==> ParseStream(taken).malformed
  {
    hide ParseStream, Run, Concat, FeedAll, ZeroCommand, ZeroInside;
    reader := new Reader();
    ghost var chunks;
    rc, chunks := reader.ReadLoop(net, calls);
    taken := Concat(chunks);
    ZeroInsideIff(old(net.input));
    ZeroInsideIff(taken);
    ZeroInsidePrefix(taken, old(net.input));
    CutsDispatchTheStream(chunks);
  }

  lemma ZeroInsidePrefix(s: seq<Byte>, t: seq<Byte>)
    requires s <= t && !ZeroInside(t)
    ensures !ZeroInside(s)
  {
    forall k | 0 <= k < |s| ensures !HoldsZero(FeedAll(START, s[..k]).frame) {
      assert t[..k] == s[..k];
    }
  }
}
