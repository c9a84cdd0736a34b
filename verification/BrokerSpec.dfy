/** The broker's message store and the clients' message lists as values: what the lists refer to and how
    often, what their running counters should say and how far they are from it, the order in which the
    messages of a client stand in line, and what the list operations of `database.c` - removing, dequeuing
    and adding a message - do to all of these. The limits on messages in flight and queued are here too. */
module BrokerSpec {
  import opened Basics

  type Qos = q: nat | q <= 2

  /** A stored message. Its reference count is kept by the store; what is here never changes. */
  datatype Stored = Stored(dbId: nat, payloadLen: nat, qos: Qos, sourceMid: Word16, hasTopic: bool, expiryTime: nat)

  datatype MsgState =
    | PublishQos0 | PublishQos1 | WaitForPuback | PublishQos2 | WaitForPubrec | ResendPubrel
    | WaitForPubrel | ResendPubcomp | WaitForPubcomp | SendPubrec | QueuedState

  /** A message of a client: a reference to a stored message, and where its delivery stands. */
  datatype ClientMsg = ClientMsg(store: Stored, mid: Word16, qos: Qos, retain: bool, state: MsgState, dup: bool)

  /** One direction of a client: its lists, its running counters and its flow-control quota. */
  datatype MsgData = MsgData(
    inflight: seq<ClientMsg>, queued: seq<ClientMsg>,
    count: int, bytes: int, count12: int, bytes12: int,
    quota: nat, maximum: nat)

  datatype Direction = Incoming | Outgoing

  /** A client. `id` stands for its client identifier, which more than one connection may use in turn. */
  datatype Context = Context(
    id: nat, hasId: bool, connected: bool, active: bool, v5: bool, lazyBridge: bool, maximumQos: Qos,
    msgsIn: MsgData, msgsOut: MsgData)

  function Md(c: Context, dir: Direction): MsgData {
    if dir.Incoming? then c.msgsIn else c.msgsOut
  }

  function WithMd(c: Context, dir: Direction, md: MsgData): Context {
    if dir.Incoming? then c.(msgsIn := md) else c.(msgsOut := md)
  }

  /** The clients with other data for one direction of client `c`. */
  function Put(cs: seq<Context>, c: nat, dir: Direction, md: MsgData): (r: seq<Context>)
    requires c < |cs|
    ensures |r| == |cs| && Md(r[c], dir) == md && WithMd(r[c], dir, Md(cs[c], dir)) == cs[c]
    ensures forall i :: 0 <= i < |cs| && i != c ==> r[i] == cs[i]
  {
    cs[c := WithMd(cs[c], dir, md)]
  }

  lemma PutPut(cs: seq<Context>, c: nat, dir: Direction, a: MsgData, b: MsgData)
    requires c < |cs|
    ensures Put(Put(cs, c, dir, a), c, dir, b) == Put(cs, c, dir, b) && Put(cs, c, dir, Md(cs[c], dir)) == cs
  {}

  // ---------- References ----------

  /** The stored messages that a list refers to, as often as it does. */
  function ListRefs(l: seq<ClientMsg>): multiset<Stored> {
    if l == [] then multiset{} else multiset{l[0].store} + ListRefs(l[1..])
  }

  function MdRefs(md: MsgData): multiset<Stored> {
    ListRefs(md.inflight) + ListRefs(md.queued)
  }

  function ContextRefs(c: Context): multiset<Stored> {
    MdRefs(c.msgsIn) + MdRefs(c.msgsOut)
  }

  function AllRefs(cs: seq<Context>): multiset<Stored> {
    if cs == [] then multiset{} else ContextRefs(cs[0]) + AllRefs(cs[1..])
  }

  lemma {:induction false} ListRefsAppend(a: seq<ClientMsg>, b: seq<ClientMsg>)
    ensures ListRefs(a + b) == ListRefs(a) + ListRefs(b)
  {
    if a == [] {
      assert a + b == b;
    } else {
      assert (a + b)[1..] == a[1..] + b;
      ListRefsAppend(a[1..], b);
    }
  }

  lemma ListRefsOne(m: ClientMsg)
    ensures ListRefs([m]) == multiset{m.store}
  {
    assert [m][1..] == [];
  }

  function Without<T>(l: seq<T>, i: nat): (r: seq<T>)
    requires i < |l|
    ensures |r| == |l| - 1
  {
    l[..i] + l[i + 1..]
  }

  lemma {:induction false} ListRefsAt(l: seq<ClientMsg>, i: nat)
    requires i < |l|
    ensures ListRefs(l) == ListRefs(Without(l, i)) + multiset{l[i].store}
  {
    hide ListRefs;
    assert l == l[..i] + [l[i]] + l[i + 1..];
    ListRefsOne(l[i]);
    ListRefsAppend(l[..i] + [l[i]], l[i + 1..]);
    ListRefsAppend(l[..i], [l[i]]);
    ListRefsAppend(l[..i], l[i + 1..]);
  }

  lemma {:induction false} AllRefsUpdate(cs: seq<Context>, i: nat, c: Context)
    requires i < |cs|
    ensures AllRefs(cs[i := c]) + ContextRefs(cs[i]) == AllRefs(cs) + ContextRefs(c)
  {
    hide ContextRefs;
    var ds := cs[i := c];
    assert AllRefs(cs) == ContextRefs(cs[0]) + AllRefs(cs[1..]);
    assert AllRefs(ds) == ContextRefs(ds[0]) + AllRefs(ds[1..]);
    if i == 0 {
      assert ds[1..] == cs[1..];
    } else {
      AllRefsUpdate(cs[1..], i - 1, c);
      assert ds[1..] == cs[1..][i - 1 := c] && ds[0] == cs[0] && cs[1..][i - 1] == cs[i];
      var head, here, there := ContextRefs(cs[0]), ContextRefs(cs[i]), ContextRefs(c);
      assert (head + AllRefs(ds[1..])) + here == head + (AllRefs(ds[1..]) + here);
      assert (head + AllRefs(cs[1..])) + there == head + (AllRefs(cs[1..]) + there);
    }
  }

  // ---------- Counters ----------

  function ListBytes(l: seq<ClientMsg>): nat {
    if l == [] then 0 else l[0].store.payloadLen + ListBytes(l[1..])
  }

  /** The messages with a QoS above 0. */
  function Above0(l: seq<ClientMsg>): seq<ClientMsg> {
    if l == [] then [] else (if l[0].qos > 0 then [l[0]] else []) + Above0(l[1..])
  }

  lemma {:induction false} ListBytesAppend(a: seq<ClientMsg>, b: seq<ClientMsg>)
    ensures ListBytes(a + b) == ListBytes(a) + ListBytes(b)
  {
    if a == [] {
      assert a + b == b;
    } else {
      assert (a + b)[0] == a[0] && (a + b)[1..] == a[1..] + b;
      ListBytesAppend(a[1..], b);
    }
  }

  lemma {:induction false} Above0Append(a: seq<ClientMsg>, b: seq<ClientMsg>)
    ensures Above0(a + b) == Above0(a) + Above0(b)
  {
    if a == [] {
      assert a + b == b && [] + Above0(b) == Above0(b);
    } else {
      var head := if a[0].qos > 0 then [a[0]] else [];
      assert (a + b)[0] == a[0] && (a + b)[1..] == a[1..] + b;
      Above0Append(a[1..], b);
      assert Above0(a + b) == head + (Above0(a[1..]) + Above0(b)) == (head + Above0(a[1..])) + Above0(b);
    }
  }

  function Count12(l: seq<ClientMsg>): nat { |Above0(l)| }

  function Bytes12(l: seq<ClientMsg>): nat { ListBytes(Above0(l)) }

  lemma SumsOne(m: ClientMsg)
    ensures ListBytes([m]) == m.store.payloadLen
    ensures Count12([m]) == (if m.qos > 0 then 1 else 0)
    ensures Bytes12([m]) == if m.qos > 0 then m.store.payloadLen else 0
  {
    assert [m][1..] == [];
    assert Above0([m]) == if m.qos > 0 then [m] else [];
  }

  lemma Sums12Append(a: seq<ClientMsg>, b: seq<ClientMsg>)
    ensures ListBytes(a + b) == ListBytes(a) + ListBytes(b)
    ensures Count12(a + b) == Count12(a) + Count12(b)
    ensures Bytes12(a + b) == Bytes12(a) + Bytes12(b)
  {
    ListBytesAppend(a, b);
    Above0Append(a, b);
    ListBytesAppend(Above0(a), Above0(b));
  }

  lemma SumsAt(l: seq<ClientMsg>, i: nat)
    requires i < |l|
    ensures var r := l[..i] + l[i + 1..];
            var m := l[i];
            ListBytes(l) == ListBytes(r) + m.store.payloadLen &&
            Count12(l) == Count12(r) + (if m.qos > 0 then 1 else 0) &&
            Bytes12(l) == Bytes12(r) + if m.qos > 0 then m.store.payloadLen else 0
  {
    hide Count12, Bytes12, ListBytes;
    assert l == l[..i] + [l[i]] + l[i + 1..];
    SumsOne(l[i]);
    Sums12Append(l[..i] + [l[i]], l[i + 1..]);
    Sums12Append(l[..i], [l[i]]);
    Sums12Append(l[..i], l[i + 1..]);
  }

  /** How far the counters are from what the lists hold. */
  datatype Drift = Drift(count: int, bytes: int, count12: int, bytes12: int)

  function DriftOf(md: MsgData): Drift {
    Drift(md.count - |md.inflight| - |md.queued|,
          md.bytes - ListBytes(md.inflight) - ListBytes(md.queued),
          md.count12 - Count12(md.inflight) - Count12(md.queued),
          md.bytes12 - Bytes12(md.inflight) - Bytes12(md.queued))
  }

  /** The counters say what both lists hold; those for QoS above 0 only if `exact12`. */
  predicate CountersOk(md: MsgData, exact12: bool) {
    var d := DriftOf(md);
    d.count == 0 && d.bytes == 0 && (exact12 ==> d.count12 == 0 && d.bytes12 == 0)
  }

  /** The counters for QoS above 0 are meant to hold for clients that may receive such messages. */
  predicate ContextCounted(c: Context) {
    CountersOk(c.msgsIn, c.maximumQos >= 1) && CountersOk(c.msgsOut, c.maximumQos >= 1)
  }

  // ---------- List operations ----------

  /** The data with other lists, and the counters moved by what that changes. */
  function Relist(md: MsgData, inflight: seq<ClientMsg>, queued: seq<ClientMsg>): MsgData {
    md.(inflight := inflight, queued := queued,
        count := md.count + |inflight| + |queued| - |md.inflight| - |md.queued|,
        bytes := md.bytes + ListBytes(inflight) + ListBytes(queued) - ListBytes(md.inflight) - ListBytes(md.queued),
        count12 := md.count12 + Count12(inflight) + Count12(queued) - Count12(md.inflight) - Count12(md.queued),
        bytes12 := md.bytes12 + Bytes12(inflight) + Bytes12(queued) - Bytes12(md.inflight) - Bytes12(md.queued))
  }

  /** `db__message_remove` on the lists and counters. */
  function RemoveInflight(md: MsgData, i: nat): MsgData
    requires i < |md.inflight|
  {
    var m := md.inflight[i];
    md.(inflight := Without(md.inflight, i),
        count := md.count - 1, bytes := md.bytes - m.store.payloadLen,
        count12 := if m.qos > 0 then md.count12 - 1 else md.count12,
        bytes12 := if m.qos > 0 then md.bytes12 - m.store.payloadLen else md.bytes12)
  }

  /** `db__message_dequeue_first` */
  function DequeueFirst(md: MsgData): MsgData
    requires md.queued != []
  {
    md.(inflight := md.inflight + [md.queued[0]], queued := md.queued[1..],
        quota := if md.quota > 0 then md.quota - 1 else 0)
  }

  /** The end of `db__message_insert`: the counters for QoS above 0 follow the requested QoS, the
      message itself the QoS the client may receive. */
  function AddMessage(md: MsgData, m: ClientMsg, requestedQos: Qos): MsgData {
    var l := md.(count := md.count + 1, bytes := md.bytes + m.store.payloadLen,
                 count12 := if requestedQos > 0 then md.count12 + 1 else md.count12,
                 bytes12 := if requestedQos > 0 then md.bytes12 + m.store.payloadLen else md.bytes12);
    if m.state.QueuedState? then l.(queued := l.queued + [m]) else l.(inflight := l.inflight + [m])
  }

  /** Removing a message takes it from its list and exactly its share from the counters. */
  lemma RemoveIsRelist(md: MsgData, i: nat)
    requires i < |md.inflight|
    ensures RemoveInflight(md, i) == Relist(md, Without(md.inflight, i), md.queued)
    ensures MdRefs(md) == MdRefs(RemoveInflight(md, i)) + multiset{md.inflight[i].store}
  {
    hide Count12, Bytes12, ListBytes, ListRefs;
    SumsAt(md.inflight, i);
    ListRefsAt(md.inflight, i);
  }

  /** Dequeuing moves a message between the lists, so no counter and no reference changes. */
  lemma DequeueKeeps(md: MsgData)
    requires md.queued != []
    ensures DriftOf(DequeueFirst(md)) == DriftOf(md)
    ensures MdRefs(DequeueFirst(md)) == MdRefs(md)
    ensures Lineup(DequeueFirst(md)) == Lineup(md)
  {
    hide Count12, Bytes12, ListBytes, ListRefs;
    var m := md.queued[0];
    assert md.queued == [m] + md.queued[1..];
    Sums12Append([m], md.queued[1..]);
    Sums12Append(md.inflight, [m]);
    ListRefsAppend([m], md.queued[1..]);
    ListRefsAppend(md.inflight, [m]);
    assert md.inflight + md.queued == DequeueFirst(md).inflight + DequeueFirst(md).queued;
  }

  /** A message without what delivery changes about it. */
  function Bare(m: ClientMsg): ClientMsg {
    m.(state := QueuedState, dup := false)
  }

  function BareAll(l: seq<ClientMsg>): (r: seq<ClientMsg>)
    ensures |r| == |l| && forall i :: 0 <= i < |l| ==> r[i] == Bare(l[i])
  {
    seq(|l|, i requires 0 <= i < |l| => Bare(l[i]))
  }

  /** The order in which a client's messages were accepted: in flight first, then queued. */
  function Lineup(md: MsgData): seq<ClientMsg> {
    BareAll(md.inflight + md.queued)
  }

  lemma BareAllAppend(a: seq<ClientMsg>, b: seq<ClientMsg>)
    ensures BareAll(a + b) == BareAll(a) + BareAll(b)
  {}

  /** Lists that hold the same messages, whatever their states, agree in all sums and references. */
  lemma {:induction false} BareSums(a: seq<ClientMsg>, b: seq<ClientMsg>)
    requires BareAll(a) == BareAll(b)
    ensures ListBytes(a) == ListBytes(b) && Count12(a) == Count12(b) && Bytes12(a) == Bytes12(b)
    ensures ListRefs(a) == ListRefs(b)
    decreases |a|
  {
    hide Count12, Bytes12, ListBytes, ListRefs, Bare;
    assert |a| == |BareAll(a)| == |BareAll(b)| == |b|;
    if a == [] {
      assert a == b;
    } else {
      BareAllTail(a);
      BareAllTail(b);
      BareSums(a[1..], b[1..]);
      BareSumsStep(a[0], a[1..], b[0], b[1..]);
      assert a == [a[0]] + a[1..] && b == [b[0]] + b[1..];
    }
  }

  lemma BareAllTail(l: seq<ClientMsg>)
    requires l != []
    ensures BareAll(l)[0] == Bare(l[0]) && BareAll(l)[1..] == BareAll(l[1..])
  {}

  lemma BareSumsStep(x: ClientMsg, a: seq<ClientMsg>, y: ClientMsg, b: seq<ClientMsg>)
    requires Bare(x) == Bare(y)
    requires ListBytes(a) == ListBytes(b) && Count12(a) == Count12(b) && Bytes12(a) == Bytes12(b)
    requires ListRefs(a) == ListRefs(b)
    ensures ListBytes([x] + a) == ListBytes([y] + b) && Count12([x] + a) == Count12([y] + b)
    ensures Bytes12([x] + a) == Bytes12([y] + b) && ListRefs([x] + a) == ListRefs([y] + b)
  {
    hide Count12, Bytes12, ListBytes, ListRefs;
    assert x.store == y.store && x.qos == y.qos by {
      assert Bare(x).store == x.store && Bare(y).store == y.store && Bare(x).qos == x.qos && Bare(y).qos == y.qos;
    }
    Sums12Append([x], a);
    Sums12Append([y], b);
    SumsOne(x);
    SumsOne(y);
    ListRefsAppend([x], a);
    ListRefsAppend([y], b);
    ListRefsOne(x);
    ListRefsOne(y);
  }

  /** Two ways to split the same messages between the lists hold the same in total. */
  lemma SameLineupSameTotals(a: MsgData, b: MsgData)
    requires Lineup(a) == Lineup(b)
    ensures |a.inflight| + |a.queued| == |b.inflight| + |b.queued|
    ensures ListBytes(a.inflight) + ListBytes(a.queued) == ListBytes(b.inflight) + ListBytes(b.queued)
    ensures Count12(a.inflight) + Count12(a.queued) == Count12(b.inflight) + Count12(b.queued)
    ensures Bytes12(a.inflight) + Bytes12(a.queued) == Bytes12(b.inflight) + Bytes12(b.queued)
    ensures MdRefs(a) == MdRefs(b)
  {
    hide Count12, Bytes12, ListBytes, ListRefs, BareAll;
    BareSums(a.inflight + a.queued, b.inflight + b.queued);
    Sums12Append(a.inflight, a.queued);
    Sums12Append(b.inflight, b.queued);
    ListRefsAppend(a.inflight, a.queued);
    ListRefsAppend(b.inflight, b.queued);
    assert |BareAll(a.inflight + a.queued)| == |a.inflight| + |a.queued|;
    assert |BareAll(b.inflight + b.queued)| == |b.inflight| + |b.queued|;
  }

  /** The counters follow an added message exactly, unless one requested with a QoS above 0 goes to
      a client that may only receive QoS 0: it is then counted, but not as what is stored. */
  lemma AddMovesDriftIff(md: MsgData, m: ClientMsg, requestedQos: Qos, maximumQos: Qos)
    requires m.qos == if requestedQos > maximumQos then maximumQos else requestedQos
    ensures DriftOf(AddMessage(md, m, requestedQos)) == DriftOf(md) <==> !(requestedQos > 0 && maximumQos == 0)
    ensures DriftOf(AddMessage(md, m, requestedQos)).count == DriftOf(md).count
    ensures DriftOf(AddMessage(md, m, requestedQos)).bytes == DriftOf(md).bytes
  {
    hide Count12, Bytes12, ListBytes;
    SumsOne(m);
    Sums12Append(md.inflight, [m]);
    Sums12Append(md.queued, [m]);
  }

  lemma AddRefs(md: MsgData, m: ClientMsg, requestedQos: Qos)
    ensures MdRefs(AddMessage(md, m, requestedQos)) == MdRefs(md) + multiset{m.store}
  {
    hide ListRefs;
    ListRefsOne(m);
    ListRefsAppend(md.inflight, [m]);
    ListRefsAppend(md.queued, [m]);
  }

  lemma WithMdRefs(c: Context, dir: Direction, md: MsgData)
    ensures ContextRefs(WithMd(c, dir, md)) + MdRefs(Md(c, dir)) == ContextRefs(c) + MdRefs(md)
  {
    hide MdRefs;
  }

  // ---------- Limits ----------

  datatype Limits = Limits(
    maxInflightBytes: nat, maxQueued: nat, maxQueuedBytes: nat,
    allowDuplicates: bool, queueQos0: bool)

  /** `db__ready_for_flight` */
  predicate ReadyForFlight(limits: Limits, md: MsgData, qos: Qos) {
    if qos == 0 || (md.maximum == 0 && limits.maxInflightBytes == 0) then true
    else
      var validBytes := md.bytes12 < limits.maxInflightBytes;
      var validCount := md.quota > 0;
      if md.maximum == 0 then validBytes
      else if limits.maxInflightBytes == 0 then validCount
      else validBytes && validCount
  }

  /** An `unsigned long` difference wraps around. */
  function Wrap(x: int): nat {
    x % 0x1_0000_0000_0000_0000
  }

  /** `db__ready_for_queue` */
  predicate ReadyForQueue(limits: Limits, c: Context, qos: Qos, md: MsgData) {
    if limits.maxQueued == 0 && limits.maxQueuedBytes == 0 then true
    else
      var sourceBytes := if qos == 0 then md.bytes else md.bytes12;
      var sourceCount := if qos == 0 then md.count else md.count12;
      var adjustBytes := if c.connected then limits.maxInflightBytes else 0;
      var adjustCount := if c.connected then md.maximum else 0;
      var validBytes := Wrap(sourceBytes - adjustBytes) < limits.maxQueuedBytes;
      var validCount := sourceCount - adjustCount < limits.maxQueued;
      if limits.maxQueuedBytes == 0 then validCount
      else if limits.maxQueued == 0 then validBytes
      else validBytes && validCount
  }

  function PublishState(qos: Qos): MsgState {
    if qos == 0 then PublishQos0 else if qos == 1 then PublishQos1 else PublishQos2
  }
}
