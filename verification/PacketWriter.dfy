/** The output queue (`packet__queue`, `packet__write`, `packet__cleanup_all`) over its linked list of
    packets, with partial writes, and the byte stream that reaches the socket: over any sequence of
    operations it is a prefix of the packets queued, in order, and a write goes on until the
    socket takes nothing. */
module PacketWriter {
  import opened Basics

  const CMD_DISCONNECT := 0xE0

  /** What one `net__write` does: it takes some of the bytes, or none. */
  datatype WriteResult = Took(n: nat) | WouldBlock | Reset | OtherError

  /** The return code of `packet__write` when a write ends like this. */
  function CodeOf(r: WriteResult): Rc {
    match r
    case Reset => ConnLost
    case OtherError => Errno
    case _ => Success
  }

  /** The results from position `a` on are all writes that took something. */
  ghost predicate TookFrom(results: seq<WriteResult>, a: nat) {
    a <= |results| && forall i :: a <= i < |results| ==> results[i].Took?
  }

  /** They are, but for the last one, which took nothing. */
  ghost predicate StoppedFrom(results: seq<WriteResult>, a: nat) {
    a < |results| && !results[|results| - 1].Took? && forall i :: a <= i < |results| - 1 ==> results[i].Took?
  }

  /** A socket with an arbitrary plan of how much it takes at each write. */
  class Sink {
    var plan: seq<WriteResult>
    /** The bytes that the socket took, and what the writes came to. */
    ghost var taken: seq<Byte>
    ghost var results: seq<WriteResult>

    constructor (plan: seq<WriteResult>)
      ensures taken == [] && results == [] && this.plan == plan
    {
      this.plan, taken, results := plan, [], [];
    }

    method Write(bytes: seq<Byte>) returns (r: WriteResult)
      requires bytes != []
      modifies this
      ensures r.Took? ==> 1 <= r.n <= |bytes|
      ensures taken == old(taken) + if r.Took? then bytes[..r.n] else []
      ensures results == old(results) + [r]
    {
      r := WouldBlock;
      if plan != [] {
        r := plan[0];
        plan := plan[1..];
        if r.Took? {
          r := Took(if r.n == 0 then 1 else if r.n > |bytes| then |bytes| else r.n);
        }
      }
      taken := taken + if r.Took? then bytes[..r.n] else [];
      results := results + [r];
    }
  }

  /** The socket took exactly what was added to `sent`. */
  ghost predicate Delivered(taken0: seq<Byte>, sent0: seq<Byte>, taken: seq<Byte>, sent: seq<Byte>) {
    sent0 <= sent && taken == taken0 + sent[|sent0|..]
  }

  lemma DeliveredNone(taken: seq<Byte>, sent: seq<Byte>)
    ensures Delivered(taken, sent, taken, sent)
  {
    assert sent[|sent|..] == [];
  }

  lemma DeliveredMore(taken0: seq<Byte>, sent0: seq<Byte>, taken: seq<Byte>, sent: seq<Byte>, more: seq<Byte>)
    requires Delivered(taken0, sent0, taken, sent)
    ensures Delivered(taken0, sent0, taken + more, sent + more)
  {
    assert (sent + more)[|sent0|..] == sent[|sent0|..] + more;
  }

  lemma DeliveredOn(taken0: seq<Byte>, sent0: seq<Byte>, taken1: seq<Byte>, sent1: seq<Byte>,
                    taken: seq<Byte>, sent: seq<Byte>)
    requires Delivered(taken0, sent0, taken1, sent1) && Delivered(taken1, sent1, taken, sent)
    ensures Delivered(taken0, sent0, taken, sent)
  {
    assert sent[|sent0|..] == sent1[|sent0|..] + sent[|sent1|..];
  }

  /** A queued packet: `pos` bytes are written, `toProcess` are left. */
  class Node {
    const command: Byte
    const bytes: seq<Byte>
    var pos: nat
    var toProcess: nat
    var next: Node?

    constructor (command: Byte, bytes: seq<Byte>)
      ensures this.command == command && this.bytes == bytes
    {
      this.command, this.bytes := command, bytes;
      pos, toProcess, next := 0, 0, null;
    }
  }

  /** The bytes of the packets of a list. */
  ghost function Contents(nodes: seq<Node>): seq<Byte>
  {
    if nodes == [] then [] else nodes[0].bytes + Contents(nodes[1..])
  }

  lemma {:induction false} ContentsSnoc(nodes: seq<Node>, n: Node)
    ensures Contents(nodes + [n]) == Contents(nodes) + n.bytes
  {
    if nodes == [] {
      assert nodes + [n] == [n] && [n][1..] == [];
      assert n.bytes + [] == n.bytes && [] + n.bytes == n.bytes;
    } else {
      assert (nodes + [n])[1..] == nodes[1..] + [n];
      ContentsSnoc(nodes[1..], n);
      assert nodes[0].bytes + (Contents(nodes[1..]) + n.bytes) == Contents(nodes) + n.bytes;
    }
  }

  /** Every node points to the one behind it, the last one nowhere. */
  ghost predicate Linked(nodes: seq<Node>)
    reads nodes
  {
    && (nodes != [] ==> nodes[|nodes| - 1].next == null)
    && (forall i :: 0 <= i < |nodes| - 1 ==> nodes[i].next == nodes[i + 1])
  }

  ghost predicate Distinct(nodes: seq<Node>) {
    forall i, j :: 0 <= i < j < |nodes| ==> nodes[i] != nodes[j]
  }

  lemma TailOf(nodes: seq<Node>)
    requires nodes != [] && Linked(nodes)
    ensures Linked(nodes[1..]) && nodes[0].next == (if |nodes| > 1 then nodes[1] else null)
    ensures Distinct(nodes) ==> Distinct(nodes[1..]) && nodes[0] !in nodes[1..]
    ensures forall n :: n in nodes[1..] ==> n in nodes
  {
    var tail := nodes[1..];
    assert forall i :: 0 <= i < |tail| ==> tail[i] == nodes[i + 1];
    if |nodes| > 1 { assert nodes[0].next == nodes[0 + 1]; }
    forall i | 0 <= i < |tail| - 1 ensures tail[i].next == tail[i + 1] {
      assert nodes[i + 1].next == nodes[i + 1 + 1];
    }
    if Distinct(nodes) {
      forall i, j | 0 <= i < j < |tail| ensures tail[i] != tail[j] {
        assert nodes[i + 1] != nodes[j + 1];
      }
    }
  }

  lemma MoveOn(sent: seq<Byte>, bytes: seq<Byte>, n: nat, behind: seq<Byte>)
    requires n <= |bytes|
    ensures sent + (bytes + behind) == sent + bytes[..n] + (bytes[n..] + behind)
  {
    assert bytes == bytes[..n] + bytes[n..];
  }

  class OutQueue {
    /** Whether this is the client library; the broker does not close at its own DISCONNECT. */
    const client: bool
    var sockOpen: bool
    var connectPending: bool
    var outPacket: Node?
    var outPacketLast: Node?
    var currentOutPacket: Node?
    /** The nodes of the list that starts at `outPacket`. */
    ghost var nodes: seq<Node>
    /** The bytes the socket took, and the bytes of all packets queued, on this connection. */
    ghost var sent: seq<Byte>
    ghost var queued: seq<Byte>

    constructor (client: bool)
      ensures Valid() && sent == [] && queued == [] && nodes == [] && currentOutPacket == null
      ensures sockOpen && !connectPending && this.client == client
    {
      this.client := client;
      sockOpen, connectPending := true, false;
      outPacket, outPacketLast, currentOutPacket := null, null, null;
      nodes, sent, queued := [], [], [];
    }

    /** `nodes` is the linked list from `outPacket`; a non-null `outPacket` has `outPacketLast` as
        the last node of its list, and nothing in the list was touched by a write. */
    ghost predicate ValidList()
      reads this`outPacket, this`outPacketLast, this`nodes, nodes
    {
      && (outPacket == null <==> nodes == [])
      && (nodes != [] ==> outPacket == nodes[0] && outPacketLast == nodes[|nodes| - 1])
      && Linked(nodes) && Distinct(nodes)
      && (forall n :: n in nodes ==> n.pos == 0 && n.toProcess == |n.bytes|)
    }

    ghost predicate ValidCurrent()
      reads this`currentOutPacket, this`nodes, currentOutPacket
    {
      currentOutPacket != null ==>
        currentOutPacket !in nodes &&
        currentOutPacket.pos + currentOutPacket.toProcess == |currentOutPacket.bytes|
    }

    /** The bytes that still have to be written, in the order in which they will be. */
    ghost function Unsent(): seq<Byte>
      reads this`currentOutPacket, this`nodes, currentOutPacket
      requires ValidCurrent()
    {
      (if currentOutPacket != null then currentOutPacket.bytes[currentOutPacket.pos..] else []) + Contents(nodes)
    }

    /** What the socket took, followed by what is unsent, is what was queued. */
    ghost predicate Valid()
      reads this`outPacket, this`outPacketLast, this`currentOutPacket, this`nodes, this`sent, this`queued
      reads nodes, currentOutPacket
    {
      ValidList() && ValidCurrent() && queued == sent + Unsent()
    }

    /** The packets that are not written yet. */
    ghost function Waiting(): seq<Node>
      reads this`currentOutPacket, this`nodes
    {
      (if currentOutPacket != null then [currentOutPacket] else []) + nodes
    }

    lemma AllWaiting()
      ensures forall k :: 0 <= k < |nodes| ==> nodes[k] in Waiting()
      ensures currentOutPacket != null ==> currentOutPacket in Waiting()
      ensures forall k :: 0 <= k < |Waiting()| ==> Waiting()[k] == currentOutPacket || Waiting()[k] in nodes
    {
      var all, off := Waiting(), |Waiting()| - |nodes|;
      assert forall k :: 0 <= k < |nodes| ==> all[off + k] == nodes[k];
    }

    /** Writing this packet ends the connection. */
    ghost predicate Closes(n: Node) {
      client && n.command / 16 == 14
    }

    /** The packets of `was` that are not waiting any more were written; only the last of them may
        close the connection, and it was closed exactly then. */
    ghost predicate Written(was: seq<Node>)
      reads this`currentOutPacket, this`nodes, this`sockOpen
    {
      var n := |was| - |Waiting()|;
      && 0 <= n && Waiting() == was[n..]
      && (forall i :: 0 <= i < n ==> (Closes(was[i]) <==> i == n - 1 && !sockOpen))
      && (n == 0 ==> sockOpen)
    }

    /** The head of the list becomes the current packet. */
    method TakeHead()
      requires ValidList() && queued == sent + Contents(nodes) && outPacket != null
      modifies this`currentOutPacket, this`outPacket, this`outPacketLast, this`nodes
      ensures Valid() && currentOutPacket == old(nodes)[0] && nodes == old(nodes)[1..]
    {
      TailOf(nodes);
      currentOutPacket := outPacket;
      outPacket := outPacket.next;
      if outPacket == null {
        outPacketLast := null;
      }
      nodes := nodes[1..];
      assert currentOutPacket.bytes[0..] == currentOutPacket.bytes;
    }

    lemma SentIsPrefix()
      requires Valid()
      ensures sent <= queued
    {}

    ghost predicate NoneCloses(was: seq<Node>, n: nat)
      requires n <= |was|
    {
      forall i :: 0 <= i < n ==> !Closes(was[i])
    }

    lemma NoneYet(was: seq<Node>)
      ensures NoneCloses(was, 0)
    {}

    lemma CurrentIs(was: seq<Node>, n: nat)
      requires n <= |was| && Waiting() == was[n..] && currentOutPacket != null
      ensures n < |was| && was[n] == currentOutPacket && was[n..][1..] == was[n + 1..]
      ensures Closes(currentOutPacket) <==> client && currentOutPacket.command / 16 * 16 == CMD_DISCONNECT
    {}

    lemma OneMore(was: seq<Node>, n: nat)
      requires n < |was| && NoneCloses(was, n) && !Closes(was[n])
      ensures NoneCloses(was, n + 1)
    {}

    lemma WrittenTo(was: seq<Node>, n: nat)
      requires n <= |was| && NoneCloses(was, n) && Waiting() == was[n..] && sockOpen
      ensures Written(was)
    {
      hide Closes;
    }

    lemma WrittenAndClosed(was: seq<Node>, n: nat)
      requires n < |was| && NoneCloses(was, n) && Waiting() == was[n + 1..] && !sockOpen && Closes(was[n])
      ensures Written(was)
    {
      hide Closes;
    }

    /** The start of `packet__write`: without a current packet the head of the list becomes it. */
    method Begin()
      requires Valid()
      modifies this`currentOutPacket, this`outPacket, this`outPacketLast, this`nodes
      ensures Valid() && Waiting() == old(Waiting())
      ensures currentOutPacket == null ==> nodes == []
    {
      hide Contents, Linked, Distinct;
      if outPacket != null && currentOutPacket == null {
        assert queued == sent + Contents(nodes);
        TakeHead();
      }
    }

    /** `packet__write`. The bytes given to the socket continue the queued stream; if no write stops
        it, everything queued up to a DISCONNECT is written. */
    method PacketWrite(sink: Sink) returns (rc: Rc)
      requires Valid()
      modifies this`currentOutPacket, this`outPacket, this`outPacketLast, this`nodes, this`sent, this`sockOpen
      modifies nodes, currentOutPacket, sink
      ensures Valid() && queued == old(queued) && sent <= queued
      ensures Delivered(old(sink.taken), old(sent), sink.taken, sent)
      ensures if !old(sockOpen) || connectPending then
                rc == (if old(sockOpen) then Success else NoConn) &&
                sink.results == old(sink.results) && sockOpen == old(sockOpen) && Waiting() == old(Waiting())
              else
                Written(old(Waiting())) &&
                (if TookFrom(sink.results, |old(sink.results)|)
                 then rc == Success && (sent == queued || !sockOpen)
                 else StoppedFrom(sink.results, |old(sink.results)|) && sockOpen &&
                      rc == CodeOf(sink.results[|sink.results| - 1]))
    {
      hide Valid, ValidList, ValidCurrent, TookFrom, StoppedFrom, Contents, Delivered, Written, NoneCloses, Waiting, Closes;
      SentIsPrefix();
      ghost var was, n := Waiting(), 0;
      NoResults(sink.results);
      DeliveredNone(sink.taken, sent);
      NoneYet(was);
      AllWaiting();
      if !sockOpen { return NoConn; }
      Begin();
      if connectPending { return Success; }
      while currentOutPacket != null
        invariant Valid() && queued == old(queued) && sent <= queued && sockOpen && !connectPending
        invariant Delivered(old(sink.taken), old(sent), sink.taken, sent)
        invariant TookFrom(sink.results, |old(sink.results)|)
        invariant n <= |was| && Waiting() == was[n..]
        invariant currentOutPacket == null ==> nodes == []
        invariant NoneCloses(was, n)
        decreases |nodes|, currentOutPacket != null
      {
        var packet := currentOutPacket;
        CurrentIs(was, n);
        var r;
        ghost var taken1, sent1, results1 := sink.taken, sent, sink.results;
        rc, r := WriteCurrent(sink);
        DeliveredOn(old(sink.taken), old(sent), taken1, sent1, sink.taken, sent);
        ResultsOn(results1, sink.results, |old(sink.results)|);
        if !r {
          WrittenTo(was, n);
          return rc;
        }
        Advance();
        if client && packet.command / 16 * 16 == CMD_DISCONNECT {
          // do_client_disconnect
          sockOpen := false;
          WrittenAndClosed(was, n);
          return Success;
        }
        OneMore(was, n);
        n := n + 1;
      }
      AllSent();
      WrittenTo(was, n);
      return Success;
    }

    /** The socket took `n` bytes of the current packet. */
    method Progress(n: nat)
      requires Valid() && currentOutPacket != null && n <= currentOutPacket.toProcess
      modifies this`sent, currentOutPacket
      ensures Valid() && sent <= queued && currentOutPacket.toProcess == old(currentOutPacket.toProcess) - n
      ensures sent == old(sent) + old(currentOutPacket.bytes[currentOutPacket.pos..currentOutPacket.pos + n])
    {
      hide Contents, Linked, Distinct;
      var packet := currentOutPacket;
      ghost var taken := packet.bytes[packet.pos..packet.pos + n];
      MoveOn(sent, packet.bytes[packet.pos..], n, Contents(nodes));
      assert packet.bytes[packet.pos..][n..] == packet.bytes[packet.pos + n..];
      packet.toProcess := packet.toProcess - n;
      packet.pos := packet.pos + n;
      sent := sent + taken;
    }

    /** The inner loop of `packet__write`; `done` says that the current packet is written. */
    method WriteCurrent(sink: Sink) returns (rc: Rc, done: bool)
      requires Valid() && currentOutPacket != null
      modifies this`sent, currentOutPacket, sink
      ensures Valid() && sent <= queued
      ensures Delivered(old(sink.taken), old(sent), sink.taken, sent)
      ensures old(sink.results) <= sink.results
      ensures done ==> rc == Success && currentOutPacket.toProcess == 0 && TookFrom(sink.results, |old(sink.results)|)
      ensures !done ==> StoppedFrom(sink.results, |old(sink.results)|) && rc == CodeOf(sink.results[|sink.results| - 1])
    {
      hide Contents, Linked, Distinct;
      var packet := currentOutPacket;
      assert sent <= queued;
      DeliveredNone(sink.taken, sent);
      while packet.toProcess > 0
        invariant packet == currentOutPacket && Valid() && sent <= queued
        invariant Delivered(old(sink.taken), old(sent), sink.taken, sent)
        invariant old(sink.results) <= sink.results && TookFrom(sink.results, |old(sink.results)|)
        decreases packet.toProcess
      {
        ghost var taken1, sent1 := sink.taken, sent;
        ghost var rest := packet.bytes[packet.pos..];
        var r := sink.Write(packet.bytes[packet.pos..]);
        match r {
          case Took(n) =>
            assert rest[..n] == packet.bytes[packet.pos..packet.pos + n];
            Progress(n);
            DeliveredMore(old(sink.taken), old(sent), taken1, sent1, rest[..n]);
          case WouldBlock => return Success, false;
          case Reset => return ConnLost, false;
          case OtherError => return Errno, false;
        }
      }
      return Success, true;
    }

    lemma AllSent()
      requires Valid() && currentOutPacket == null && nodes == []
      ensures sent == queued
    {}

    /** The written packet is dropped and the next one becomes current. */
    method Advance()
      requires Valid() && currentOutPacket != null && currentOutPacket.toProcess == 0
      modifies this`currentOutPacket, this`outPacket, this`outPacketLast, this`nodes
      ensures Valid() && Waiting() == old(Waiting())[1..]
      ensures if old(nodes) == [] then currentOutPacket == null && nodes == []
              else currentOutPacket == old(nodes)[0] && nodes == old(nodes)[1..]
    {
      hide Contents, Linked, Distinct;
      var packet := currentOutPacket;
      NoContents();
      assert packet.bytes[packet.pos..] == [] && queued == sent + Contents(nodes);
      currentOutPacket := outPacket;
      if outPacket != null {
        TakeHead();
      }
    }

    /** The list operation of `packet__queue`. */
    method Append(packet: Node)
      requires ValidList() && packet !in nodes
      modifies this`outPacket, this`outPacketLast, this`nodes, nodes, packet
      ensures ValidList() && nodes == old(nodes) + [packet]
      ensures forall n :: n in old(nodes) ==> n.pos == old(n.pos)
    {
      hide Linked, Distinct;
      LinkedUnfolded(nodes);
      packet.pos := 0;
      packet.toProcess := |packet.bytes|;
      packet.next := null;
      if outPacket != null {
        outPacketLast.next := packet;
      } else {
        outPacket := packet;
      }
      outPacketLast := packet;
      LinkedSnoc(nodes, packet);
      nodes := nodes + [packet];
    }

    /** `packet__queue`; `writeNow` is the condition under which the client writes at once. */
    method PacketQueue(packet: Node, writeNow: bool, sink: Sink) returns (rc: Rc)
      requires Valid() && packet !in nodes && packet != currentOutPacket
      modifies this`currentOutPacket, this`outPacket, this`outPacketLast, this`nodes, this`sent, this`sockOpen, this`queued
      modifies nodes, currentOutPacket, packet, sink
      ensures Valid() && queued == old(queued) + packet.bytes && sent <= queued
      ensures Delivered(old(sink.taken), old(sent), sink.taken, sent)
      ensures if !writeNow || !old(sockOpen) || connectPending then
                rc == (if writeNow && !old(sockOpen) then NoConn else Success) &&
                sink.results == old(sink.results) && sockOpen == old(sockOpen) && Waiting() == old(Waiting()) + [packet]
              else
                Written(old(Waiting()) + [packet]) &&
                (if TookFrom(sink.results, |old(sink.results)|)
                 then rc == Success && (sent == queued || !sockOpen)
                 else StoppedFrom(sink.results, |old(sink.results)|) && sockOpen &&
                      rc == CodeOf(sink.results[|sink.results| - 1]))
    {
      hide Linked, Distinct, TookFrom, StoppedFrom, Written, ValidList;
      assert sent <= queued;
      DeliveredNone(sink.taken, sent);
      Enqueue(packet);
      if writeNow {
        rc := PacketWrite(sink);
      } else {
        rc := Success;
      }
    }

    /** The packet is appended to the list and to the stream. */
    method Enqueue(packet: Node)
      requires Valid() && packet !in nodes && packet != currentOutPacket
      modifies this`outPacket, this`outPacketLast, this`nodes, this`queued, nodes, packet
      ensures Valid() && queued == old(queued) + packet.bytes && nodes == old(nodes) + [packet]
      ensures Waiting() == old(Waiting()) + [packet]
    {
      hide Contents, Linked, Distinct;
      Append(packet);
      ContentsSnoc(old(nodes), packet);
      ghost var head := if currentOutPacket != null then currentOutPacket.bytes[currentOutPacket.pos..] else [];
      assert head + (Contents(old(nodes)) + packet.bytes) == head + Contents(old(nodes)) + packet.bytes;
      queued := queued + packet.bytes;
    }

    /** `packet__cleanup_all`: the connection ends and nothing stays queued. */
    method CleanupAll()
      requires Valid()
      modifies this`currentOutPacket, this`outPacket, this`nodes, this`queued, this`sent
      ensures Valid() && currentOutPacket == null && outPacket == null && queued == sent == []
    {
      hide Contents;
      if outPacket != null && currentOutPacket == null {
        TailOf(nodes);
        currentOutPacket := outPacket;
        outPacket := outPacket.next;
        nodes := nodes[1..];
      }
      while currentOutPacket != null
        invariant outPacket == null <==> nodes == []
        invariant nodes != [] ==> outPacket == nodes[0]
        invariant Linked(nodes)
        invariant currentOutPacket == null ==> nodes == []
        decreases |nodes|, currentOutPacket != null
      {
        currentOutPacket := outPacket;
        if outPacket != null {
          TailOf(nodes);
          outPacket := outPacket.next;
          nodes := nodes[1..];
        }
      }
      queued, sent := [], [];
      assert Contents([]) == [] by { NoContents(); }
    }
  }

  lemma LinkedUnfolded(nodes: seq<Node>)
    requires Linked(nodes) && Distinct(nodes)
    ensures forall i :: 0 <= i < |nodes| - 1 ==> nodes[i].next == nodes[i + 1] && nodes[i] != nodes[|nodes| - 1]
  {}

  lemma LinkedSnoc(nodes: seq<Node>, last: Node)
    requires last.next == null && Distinct(nodes) && last !in nodes
    requires forall i :: 0 <= i < |nodes| - 1 ==> nodes[i].next == nodes[i + 1]
    requires nodes != [] ==> nodes[|nodes| - 1].next == last
    ensures Linked(nodes + [last]) && Distinct(nodes + [last])
  {
    var all := nodes + [last];
    assert forall i :: 0 <= i < |all| ==> all[i] == if i < |nodes| then nodes[i] else last;
  }

  lemma NoContents()
    ensures Contents([]) == []
  {}

  lemma NoResults(results: seq<WriteResult>)
    ensures TookFrom(results, |results|)
  {}

  /** What the results of a further write make of those so far. */
  lemma ResultsOn(before: seq<WriteResult>, after: seq<WriteResult>, a: nat)
    requires before <= after && TookFrom(before, a)
    ensures TookFrom(after, |before|) ==> TookFrom(after, a)
    ensures StoppedFrom(after, |before|) ==> StoppedFrom(after, a) && !TookFrom(after, a)
  {}

  // ---------- One connection ----------

  /** What may happen to the queue of a connection. */
  datatype Op =
    | Queue(command: Byte, bytes: seq<Byte>, now: bool)
    | Write
    | SetPending(pending: bool)                     // the connection is being set up, or no longer

  /** The bytes of the packets that are queued, in the order of the operations. */
  function Stream(ops: seq<Op>): seq<Byte> {
    if ops == [] then []
    else Stream(ops[..|ops| - 1]) + if ops[|ops| - 1].Queue? then ops[|ops| - 1].bytes else []
  }

  lemma StreamSnoc(ops: seq<Op>, i: nat)
    requires i < |ops|
    ensures Stream(ops[..i + 1]) == Stream(ops[..i]) + if ops[i].Queue? then ops[i].bytes else []
  {
    assert ops[..i + 1][..i] == ops[..i];
  }

  /** One operation: what was queued grows by the packet, and the bytes that the socket takes are the
      next ones of the stream. */
  method Perform(q: OutQueue, op: Op, sink: Sink)
    requires q.Valid()
    modifies q, q.Waiting(), sink
    ensures q.Valid() && q.queued == old(q.queued) + (if op.Queue? then op.bytes else []) && q.sent <= q.queued
    ensures Delivered(old(sink.taken), old(q.sent), sink.taken, q.sent)
    ensures forall k :: 0 <= k < |q.Waiting()| ==> q.Waiting()[k] in old(q.Waiting()) || fresh(q.Waiting()[k])
  {
    hide OutQueue.Valid, OutQueue.ValidList, OutQueue.ValidCurrent, TookFrom, StoppedFrom;
    q.SentIsPrefix();
    q.AllWaiting();
    DeliveredNone(sink.taken, q.sent);
    match op
    case Queue(command, bytes, now) =>
      var node := new Node(command, bytes);
      ghost var all := q.Waiting() + [node];
      assert forall n :: n in all ==> n in old(q.Waiting()) || n == node;
      var rc := q.PacketQueue(node, now, sink);
    case Write =>
      var rc := q.PacketWrite(sink);
    case SetPending(pending) =>
      q.connectPending := pending;
  }

  /** Any sequence of operations on one connection: after each of them the bytes that the socket took
      are a prefix of the concatenation of the packets queued so far, in queue order. `history`
      records the bytes taken after each operation. */
  method OneConnection(client: bool, ops: seq<Op>, sink: Sink) returns (q: OutQueue, ghost history: seq<seq<Byte>>)
    modifies sink
    ensures fresh(q) && q.Valid() && q.queued == Stream(ops)
    ensures |history| == |ops| + 1 && Recorded(history, ops, |ops|) && sink.taken == old(sink.taken) + history[|ops|]
  {
    hide OutQueue.Valid, OutQueue.ValidList, OutQueue.ValidCurrent, Stream, Delivered, Recorded, Contents;
    q := new OutQueue(client);
    history := [[]];
    DeliveredNone(sink.taken, q.sent);
    RecordNone(ops);
    for i := 0 to |ops|
      invariant fresh(q) && q.Valid() && q.queued == Stream(ops[..i])
      invariant forall k :: 0 <= k < |q.Waiting()| ==> fresh(q.Waiting()[k])
      invariant |history| == i + 1 && Recorded(history, ops, i) && history[i] == q.sent
      invariant Delivered(old(sink.taken), [], sink.taken, q.sent)
    {
      hide OutQueue.Waiting;
      ghost var taken1, sent1 := sink.taken, q.sent;
      Perform(q, ops[i], sink);
      DeliveredOn(old(sink.taken), [], taken1, sent1, sink.taken, q.sent);
      DeliveredFrom(taken1, sent1, sink.taken, q.sent);
      StreamSnoc(ops, i);
      RecordMore(history, ops, i, q.sent);
      history := history + [q.sent];
    }
    assert ops[..|ops|] == ops;
    DeliveredAll(old(sink.taken), sink.taken, q.sent);
  }

  lemma DeliveredAll(taken0: seq<Byte>, taken: seq<Byte>, sent: seq<Byte>)
    requires Delivered(taken0, [], taken, sent)
    ensures taken == taken0 + sent
  {}

  lemma DeliveredFrom(taken0: seq<Byte>, sent0: seq<Byte>, taken: seq<Byte>, sent: seq<Byte>)
    requires Delivered(taken0, sent0, taken, sent)
    ensures sent0 <= sent
  {}

  /** A record of the bytes taken after each of the first `n` operations: what was taken only grows, and
      is always a prefix of what was queued. */
  ghost predicate Recorded(history: seq<seq<Byte>>, ops: seq<Op>, n: nat) {
    && |history| == n + 1 && n <= |ops| && history[0] == []
    && (forall k :: 0 <= k <= n ==> history[k] <= Stream(ops[..k]))
    && (forall k :: 0 <= k < n ==> history[k] <= history[k + 1])
  }

  lemma RecordNone(ops: seq<Op>)
    ensures Recorded([[]], ops, 0) && Stream(ops[..0]) == []
  {}

  lemma RecordMore(history: seq<seq<Byte>>, ops: seq<Op>, n: nat, sent: seq<Byte>)
    requires n < |ops| && |history| == n + 1 && Recorded(history, ops, n) && history[n] <= sent <= Stream(ops[..n + 1])
    ensures Recorded(history + [sent], ops, n + 1)
  {
    hide Stream;
  }
}
