/** What each operation of the broker's `database.c` makes of a client's lists, counters and quotas: how an
    acknowledgement is taken, how queued messages move in flight, what a reconnect resets and counts anew,
    what a PUBREL releases, what a write sends and in which state it leaves the messages, and what becomes
    of a message that is handed to a client. Each is a function, with the facts that the loops in place need. */
module BrokerFlow {
  import opened Basics
  import opened BrokerSpec

  function SetInflight(md: MsgData, i: nat, m: ClientMsg): MsgData
    requires i < |md.inflight|
  {
    md.(inflight := md.inflight[i := m])
  }

  function SetQueued(md: MsgData, i: nat, state: MsgState): MsgData
    requires i < |md.queued|
  {
    md.(queued := md.queued[i := md.queued[i].(state := state)])
  }

  lemma SetKeepsLineup(md: MsgData, i: nat, m: ClientMsg, state: MsgState)
    ensures i < |md.inflight| && Bare(m) == Bare(md.inflight[i]) ==> Lineup(SetInflight(md, i, m)) == Lineup(md)
    ensures i < |md.queued| ==> Lineup(SetQueued(md, i, state)) == Lineup(md)
  {
    if i < |md.inflight| {
      assert (md.inflight + md.queued)[i := m] == md.inflight[i := m] + md.queued;
    }
    if i < |md.queued| {
      var r := md.queued[i].(state := state);
      assert (md.inflight + md.queued)[|md.inflight| + i := r] == md.inflight + md.queued[i := r];
    }
  }

  /** Data with the same messages in line and the same counters is counted equally well. */
  lemma SameLineupSameDrift(a: MsgData, b: MsgData)
    requires Lineup(a) == Lineup(b)
    requires a.count == b.count && a.bytes == b.bytes && a.count12 == b.count12 && a.bytes12 == b.bytes12
    ensures DriftOf(a) == DriftOf(b) && MdRefs(a) == MdRefs(b)
  {
    hide Count12, Bytes12, ListBytes, ListRefs, Lineup, MdRefs;
    SameLineupSameTotals(a, b);
  }

  // ---------- Moving queued messages in flight ----------

  /** The messages ready to be published. */
  function Published(l: seq<ClientMsg>): seq<ClientMsg> {
    seq(|l|, i requires 0 <= i < |l| => l[i].(state := PublishState(l[i].qos)))
  }

  /** The first `k` queued messages join the ones in flight, in order. */
  function Open(md: MsgData, k: nat): MsgData
    requires k <= |md.queued|
  {
    md.(inflight := md.inflight + Published(md.queued[..k]), queued := md.queued[k..],
        quota := if md.quota > k then md.quota - k else 0)
  }

  lemma OpenStep(md: MsgData, k: nat)
    requires k < |md.queued|
    ensures var o := Open(md, k);
            Open(md, k + 1) == DequeueFirst(SetQueued(o, 0, PublishState(o.queued[0].qos)))
  {
    assert Published(md.queued[..k + 1]) == Published(md.queued[..k]) + Published([md.queued[k]]);
  }

  lemma OpenNone(md: MsgData)
    ensures Open(md, 0) == md
  {}

  lemma OpenKeepsLineup(md: MsgData, k: nat)
    requires k <= |md.queued|
    ensures Lineup(Open(md, k)) == Lineup(md)
  {
    var o := Open(md, k);
    assert |o.inflight + o.queued| == |md.inflight + md.queued|;
    assert forall i :: 0 <= i < |o.inflight + o.queued| ==> Bare((o.inflight + o.queued)[i]) == Bare((md.inflight + md.queued)[i]);
  }

  // ---------- Acknowledgement of an outgoing message ----------

  /** An acknowledgement that does not fit the message it names. */
  predicate Offends(m: ClientMsg, awaited: MsgState, qos: Qos) {
    m.qos != qos || (qos == 2 && m.state != awaited)
  }

  /** What an acknowledgement leaves in flight, and whether it fitted all messages it names. */
  function Acked(l: seq<ClientMsg>, mid: Word16, awaited: MsgState, qos: Qos): (seq<ClientMsg>, bool) {
    if l == [] then ([], true)
    else if l[0].mid != mid then
      var r := Acked(l[1..], mid, awaited, qos);
      ([l[0]] + r.0, r.1)
    else if Offends(l[0], awaited, qos) then (l, false)
    else Acked(l[1..], mid, awaited, qos)
  }

  /** The messages with another id. */
  function Others(l: seq<ClientMsg>, mid: Word16): seq<ClientMsg> {
    if l == [] then [] else (if l[0].mid == mid then [] else [l[0]]) + Others(l[1..], mid)
  }

  /** An acknowledgement is accepted exactly if it fits every message it names, and then removes those
      and no other. */
  lemma {:induction false} AckedRemovesNamed(l: seq<ClientMsg>, mid: Word16, awaited: MsgState, qos: Qos)
    ensures var r := Acked(l, mid, awaited, qos);
            (r.1 <==> forall i :: 0 <= i < |l| && l[i].mid == mid ==> !Offends(l[i], awaited, qos)) &&
            (r.1 ==> r.0 == Others(l, mid))
  {
    if l != [] {
      var t := l[1..];
      AckedRemovesNamed(t, mid, awaited, qos);
      assert forall i :: 1 <= i < |l| ==> l[i] == t[i - 1];
    }
  }

  /** A refused acknowledgement still removes what it fitted before the first message, at `b`, that it
      does not fit; that one and everything behind it stay. */
  lemma {:induction false} RefusedAckStops(l: seq<ClientMsg>, mid: Word16, awaited: MsgState, qos: Qos, b: nat)
    requires b < |l| && l[b].mid == mid && Offends(l[b], awaited, qos)
    requires forall i :: 0 <= i < b && l[i].mid == mid ==> !Offends(l[i], awaited, qos)
    ensures Acked(l, mid, awaited, qos) == (Others(l[..b], mid) + l[b..], false)
  {
    hide Offends, Others;
    if b == 0 {
      OthersNone(mid);
      assert [] + l == l && l[..0] == [] && l[0..] == l;
    } else {
      var t, kept := l[1..], if l[0].mid == mid then [] else [l[0]];
      RefusedAckStops(t, mid, awaited, qos, b - 1) by {
        assert forall i :: 0 <= i < b ==> t[i] == l[i + 1];
      }
      OthersFirst(l[..b], mid);
      assert l[..b][1..] == t[..b - 1] && t[b - 1..] == l[b..];
      assert (kept + Others(t[..b - 1], mid)) + l[b..] == kept + (Others(t[..b - 1], mid) + l[b..]);
      assert Acked(l, mid, awaited, qos) == (kept + Acked(t, mid, awaited, qos).0, false) by {
        assert l[0].mid == mid ==> !Offends(l[0], awaited, qos);
        assert [] + Acked(t, mid, awaited, qos).0 == Acked(t, mid, awaited, qos).0;
      }
    }
  }

  lemma OthersNone(mid: Word16)
    ensures Others([], mid) == []
  {}

  lemma OthersFirst(l: seq<ClientMsg>, mid: Word16)
    requires l != []
    ensures Others(l, mid) == (if l[0].mid == mid then [] else [l[0]]) + Others(l[1..], mid)
  {}

  /** How many queued messages fit beside the ones in flight. */
  function Room(md: MsgData): (k: nat)
    ensures k <= |md.queued|
  {
    if md.maximum == 0 then |md.queued|
    else if |md.inflight| >= md.maximum then 0
    else if |md.queued| <= md.maximum - |md.inflight| then |md.queued|
    else md.maximum - |md.inflight|
  }

  /** `db__message_delete_outgoing` */
  function DeleteOutgoing(md: MsgData, mid: Word16, awaited: MsgState, qos: Qos): (MsgData, Rc) {
    var r := Acked(md.inflight, mid, awaited, qos);
    var cut := Relist(md, r.0, md.queued);
    if r.1 then (Open(cut, Room(cut)), Success) else (cut, Protocol)
  }

  lemma AckCodes(md: MsgData, mid: Word16, awaited: MsgState, qos: Qos)
    ensures var rc := DeleteOutgoing(md, mid, awaited, qos).1; rc == Success || rc == Protocol
  {
    hide Relist, Open, Room;
  }

  /** After an accepted acknowledgement the client's window is as full as it can be: messages wait
      only if the maximum is reached, and nothing was let in beyond it. What was in line stays in line. */
  lemma AcceptedAckFillsWindow(md: MsgData, mid: Word16, awaited: MsgState, qos: Qos)
    requires DeleteOutgoing(md, mid, awaited, qos).1 == Success
    ensures var after := DeleteOutgoing(md, mid, awaited, qos).0;
            (after.queued != [] ==> md.maximum != 0 && |after.inflight| >= md.maximum) &&
            (md.maximum != 0 ==> |after.inflight| <= md.maximum || |after.inflight| <= |md.inflight|) &&
            Lineup(after) == BareAll(Others(md.inflight, mid) + md.queued) &&
            DriftOf(after) == DriftOf(md)
  {
    hide Count12, Bytes12, ListBytes;
    var r := Acked(md.inflight, mid, awaited, qos);
    AckedRemovesNamed(md.inflight, mid, awaited, qos);
    OthersShorter(md.inflight, mid);
    var cut := Relist(md, r.0, md.queued);
    OpenKeepsLineup(cut, Room(cut));
    SameLineupSameDrift(Open(cut, Room(cut)), cut);
  }

  lemma {:induction false} OthersShorter(l: seq<ClientMsg>, mid: Word16)
    ensures |Others(l, mid)| <= |l|
  {
    if l != [] {
      OthersShorter(l[1..], mid);
    }
  }

  /** `util__increment_send_quota` and `util__increment_receive_quota` */
  function Raised(md: MsgData): MsgData {
    md.(quota := if md.quota < md.maximum then md.quota + 1 else md.quota)
  }

  lemma RaisedCounted(md: MsgData)
    ensures DriftOf(Raised(md)) == DriftOf(md) && MdRefs(Raised(md)) == MdRefs(md)
  {}

  /** The position of the first message with this id; the length if there is none. */
  function First(l: seq<ClientMsg>, mid: Word16): (i: nat)
    ensures i <= |l| && (i < |l| ==> l[i].mid == mid)
    ensures forall k :: 0 <= k < i ==> l[k].mid != mid
  {
    if l == [] then 0 else if l[0].mid == mid then 0 else First(l[1..], mid) + 1
  }

  /** `db__message_update_outgoing` */
  function UpdateOutgoing(md: MsgData, mid: Word16, state: MsgState, qos: Qos): (MsgData, Rc) {
    var i := First(md.inflight, mid);
    if i == |md.inflight| then (md, NotFound)
    else if md.inflight[i].qos != qos then (md, Protocol)
    else (SetInflight(md, i, md.inflight[i].(state := state)), Success)
  }

  /** What is left of a client's data once its messages are deleted. */
  function Cleared(md: MsgData): MsgData {
    md.(inflight := [], queued := [], count := 0, bytes := 0, count12 := 0, bytes12 := 0)
  }

  function Emptied(c: Context): Context {
    c.(msgsIn := Cleared(c.msgsIn), msgsOut := Cleared(c.msgsOut))
  }

  lemma EmptiedCounted(c: Context)
    ensures ContextCounted(Emptied(c)) && ContextRefs(Emptied(c)) == multiset{}
  {}

  // ---------- Reconnecting ----------

  function ResetState(m: ClientMsg): ClientMsg {
    m.(state := if m.qos == 2 && m.state.WaitForPubcomp? then ResendPubrel else PublishState(m.qos))
  }

  function ResetAll(l: seq<ClientMsg>): seq<ClientMsg> {
    seq(|l|, i requires 0 <= i < |l| => ResetState(l[i]))
  }

  /** The counters of one more message. */
  function Count(md: MsgData, m: ClientMsg): MsgData {
    md.(count := md.count + 1, bytes := md.bytes + m.store.payloadLen,
        count12 := if m.qos > 0 then md.count12 + 1 else md.count12,
        bytes12 := if m.qos > 0 then md.bytes12 + m.store.payloadLen else md.bytes12)
  }

  /** The counters hold the messages in flight and the first `i` queued ones. */
  predicate Counts(md: MsgData, i: nat)
    requires i <= |md.queued|
  {
    var l := md.inflight + md.queued[..i];
    md.count == |l| && md.bytes == ListBytes(l) && md.count12 == Count12(l) && md.bytes12 == Bytes12(l)
  }

  /** The queue loop of a reconnect from position `i`: it counts each message, and moves the head of
      the queue in flight whenever the message at hand is ready. */
  function Requeue(limits: Limits, md: MsgData, i: nat): MsgData
    requires i <= |md.queued|
    decreases |md.queued| - i
  {
    if i == |md.queued| then md
    else
      var m := md.queued[i];
      var counted := Count(md, m);
      if ReadyForFlight(limits, counted, m.qos) then
        Requeue(limits, DequeueFirst(SetQueued(counted, i, PublishState(m.qos))), i)
      else Requeue(limits, counted, i + 1)
  }

  lemma RequeueStep(limits: Limits, md: MsgData, i: nat)
    requires i < |md.queued|
    ensures var m := md.queued[i];
            var counted := Count(md, m);
            MdRefs(counted) == MdRefs(md) &&
            Requeue(limits, md, i) ==
              if ReadyForFlight(limits, counted, m.qos) then
                Requeue(limits, DequeueFirst(SetQueued(counted, i, PublishState(m.qos))), i)
              else Requeue(limits, counted, i + 1)
  {
    hide ReadyForFlight;
  }

  lemma RequeueEnd(limits: Limits, md: MsgData)
    ensures Requeue(limits, md, |md.queued|) == md
  {}

  lemma DequeuedOne(md: MsgData)
    requires md.queued != []
    ensures |DequeueFirst(md).queued| == |md.queued| - 1
  {}

  /** The data with the first `i` in-flight messages reset and counted. */
  function Tallied(md: MsgData, i: nat): MsgData
    requires i <= |md.inflight|
  {
    Tally(md, md.inflight[..i]).(inflight := ResetAll(md.inflight[..i]) + md.inflight[i..], quota := md.maximum)
  }

  lemma ResetNone(md: MsgData)
    ensures MdRefs(Tallied(md, 0)) == MdRefs(md)
    ensures Tallied(md, 0).inflight == md.inflight && Count12([]) == 0 && md.inflight[..0] == []
  {
    assert ResetAll([]) + md.inflight == md.inflight;
  }

  lemma TalliedStep(md: MsgData, i: nat)
    requires i < |md.inflight|
    ensures var m := Tallied(md, i).inflight[i];
            m == md.inflight[i] && SetInflight(Count(Tallied(md, i), m), i, ResetState(m)) == Tallied(md, i + 1) &&
            MdRefs(Tallied(md, i + 1)) == MdRefs(Tallied(md, i)) &&
            Count12(md.inflight[..i + 1]) == Count12(md.inflight[..i]) + if m.qos > 0 then 1 else 0
  {
    hide Count12, Bytes12, ListBytes, ListRefs, Lineup;
    var m := md.inflight[i];
    assert md.inflight[..i + 1] == md.inflight[..i] + [m];
    Sums12Append(md.inflight[..i], [m]);
    SumsOne(m);
    assert Tallied(md, i).inflight[i := ResetState(m)] == Tallied(md, i + 1).inflight;
    SetKeepsLineup(Tallied(md, i), i, ResetState(m), m.state);
    SameLineupSameTotals(SetInflight(Tallied(md, i), i, ResetState(m)), Tallied(md, i));
  }

  lemma TallyNone(md: MsgData)
    ensures Tallied(md, 0) == Tally(md, []).(inflight := md.inflight, quota := md.maximum)
  {
    assert md.inflight[..0] == [] && ResetAll([]) + md.inflight[0..] == md.inflight;
  }

  /** A client with the first `i` outgoing messages in flight reset. */
  function ResetPart(c: Context, i: nat): Context
    requires i <= |c.msgsOut.inflight|
  {
    c.(msgsOut := Tallied(c.msgsOut, i),
       msgsIn := c.msgsIn.(quota := Less(c.msgsIn.quota, Count12(c.msgsOut.inflight[..i]))))
  }

  lemma ResetPartStep(c: Context, i: nat)
    requires i < |c.msgsOut.inflight|
    ensures var x, y := ResetPart(c, i), ResetPart(c, i + 1);
            |x.msgsOut.inflight| == |c.msgsOut.inflight| &&
            var m := x.msgsOut.inflight[i];
            m == c.msgsOut.inflight[i] &&
            y.msgsOut == SetInflight(Count(x.msgsOut, m), i, ResetState(m)) &&
            MdRefs(y.msgsOut) == MdRefs(x.msgsOut) && MdRefs(y.msgsIn) == MdRefs(x.msgsIn) &&
            y.msgsIn == (if m.qos > 0 then x.msgsIn.(quota := Less(x.msgsIn.quota, 1)) else x.msgsIn) &&
            y == x.(msgsOut := y.msgsOut, msgsIn := y.msgsIn)
  {
    hide Count12, Bytes12, ListBytes, ListRefs, Lineup;
    TalliedStep(c.msgsOut, i);
    assert c.msgsOut.inflight[..i][..] == c.msgsOut.inflight[..i];
    QuotaIrrelevant(c.msgsIn, ResetPart(c, i).msgsIn.quota);
    QuotaIrrelevant(c.msgsIn, ResetPart(c, i + 1).msgsIn.quota);
  }

  lemma ResetPartStart(c: Context)
    ensures var md := Tally(c.msgsOut, []).(inflight := c.msgsOut.inflight, quota := c.msgsOut.maximum);
            MdRefs(md) == MdRefs(c.msgsOut) && ResetPart(c, 0) == c.(msgsOut := md)
  {
    hide ListRefs;
    ResetNone(c.msgsOut);
    TallyNone(c.msgsOut);
  }

  lemma ResetPartEnd(limits: Limits, c: Context)
    ensures var y := ResetPart(c, |c.msgsOut.inflight|);
            ResetOutgoing(limits, c) == y.(msgsOut := Requeue(limits, y.msgsOut, 0))
  {
    hide Count12, Bytes12, ListBytes, Requeue;
    TalliedAll(c.msgsOut);
    assert c.msgsOut.inflight[..|c.msgsOut.inflight|] == c.msgsOut.inflight;
  }

  lemma TalliedAll(md: MsgData)
    ensures Tallied(md, |md.inflight|) == Tally(md, md.inflight).(inflight := ResetAll(md.inflight), quota := md.maximum)
  {
    assert md.inflight[..|md.inflight|] == md.inflight;
  }

  /** Counting the next queued message. */
  lemma CountNext(md: MsgData, i: nat)
    requires i < |md.queued| && Counts(md, i)
    ensures Counts(Count(md, md.queued[i]), i + 1)
  {
    hide Count12, Bytes12, ListBytes;
    var m := md.queued[i];
    assert md.inflight + md.queued[..i + 1] == md.inflight + md.queued[..i] + [m];
    Sums12Append(md.inflight + md.queued[..i], [m]);
    SumsOne(m);
  }

  /** Moving the head in flight once `i + 1` messages are counted leaves `i` counted queued ones. */
  lemma DequeueCounted(md: MsgData, i: nat, state: MsgState)
    requires i < |md.queued| && Counts(md, i + 1)
    ensures var d := DequeueFirst(SetQueued(md, i, state)); Counts(d, i) && Lineup(d) == Lineup(md)
  {
    hide Count12, Bytes12, ListBytes, Lineup;
    var s := SetQueued(md, i, state);
    var d := DequeueFirst(s);
    SetKeepsLineup(md, i, md.queued[i], state);
    DequeueKeeps(s);
    var before, after := md.inflight + md.queued[..i + 1], d.inflight + d.queued[..i];
    assert after == s.inflight + s.queued[..i + 1];
    assert s.queued[..i + 1] == md.queued[..i + 1][i := md.queued[i].(state := state)];
    assert BareAll(before) == BareAll(after);
    BareSums(before, after);
  }

  /** A reconnect counts every message once and keeps all of them in line. */
  lemma {:induction false} RequeueCounts(limits: Limits, md: MsgData, i: nat)
    requires i <= |md.queued| && Counts(md, i)
    ensures CountersOk(Requeue(limits, md, i), true) && Lineup(Requeue(limits, md, i)) == Lineup(md)
    decreases |md.queued| - i
  {
    hide Count12, Bytes12, ListBytes, ReadyForFlight, Lineup, Counts, CountersOk;
    if i == |md.queued| {
      AllCounted(md);
    } else {
      var m := md.queued[i];
      var counted := Count(md, m);
      CountNext(md, i);
      if ReadyForFlight(limits, counted, m.qos) {
        DequeueCounted(counted, i, PublishState(m.qos));
        RequeueCounts(limits, DequeueFirst(SetQueued(counted, i, PublishState(m.qos))), i);
      } else {
        RequeueCounts(limits, counted, i + 1);
      }
      assert Lineup(counted) == Lineup(md) by { CountLineup(md, m); }
    }
  }

  lemma CountLineup(md: MsgData, m: ClientMsg)
    ensures Lineup(Count(md, m)) == Lineup(md)
  {}

  lemma AllCounted(md: MsgData)
    requires Counts(md, |md.queued|)
    ensures CountersOk(md, true)
  {
    hide Count12, Bytes12, ListBytes;
    assert md.queued[..|md.queued|] == md.queued;
    Sums12Append(md.inflight, md.queued);
  }

  /** The data with counters for these in-flight messages only. */
  function Tally(md: MsgData, inflight: seq<ClientMsg>): MsgData {
    md.(inflight := inflight, count := |inflight|, bytes := ListBytes(inflight),
        count12 := Count12(inflight), bytes12 := Bytes12(inflight))
  }

  function Less(quota: nat, n: nat): nat {
    if quota > n then quota - n else 0
  }

  /** `db__message_reconnect_reset_outgoing`. It lowers the quota of the other direction. */
  function ResetOutgoing(limits: Limits, c: Context): Context {
    var out := Tally(c.msgsOut, c.msgsOut.inflight).(inflight := ResetAll(c.msgsOut.inflight), quota := c.msgsOut.maximum);
    c.(msgsOut := Requeue(limits, out, 0),
       msgsIn := c.msgsIn.(quota := Less(c.msgsIn.quota, Count12(c.msgsOut.inflight))))
  }

  function Qos2Only(l: seq<ClientMsg>): seq<ClientMsg> {
    if l == [] then [] else (if l[0].qos == 2 then [l[0]] else []) + Qos2Only(l[1..])
  }

  /** `db__message_reconnect_reset_incoming` */
  function ResetIncoming(limits: Limits, c: Context): Context {
    var tallied := Tally(c.msgsIn, Qos2Only(c.msgsIn.inflight));
    c.(msgsIn := Requeue(limits, tallied.(quota := Less(c.msgsIn.maximum, Count12(c.msgsIn.inflight))), 0))
  }

  /** The incoming data with the first `p` messages in flight dealt with. */
  function InPart(md: MsgData, p: nat): MsgData
    requires p <= |md.inflight|
  {
    var kept := Qos2Only(md.inflight[..p]);
    Tally(md, kept).(inflight := kept + md.inflight[p..], quota := Less(md.maximum, Count12(md.inflight[..p])))
  }

  function CountIn(md: MsgData, m: ClientMsg): MsgData {
    Count(md, m).(quota := if m.qos > 0 then Less(md.quota, 1) else md.quota)
  }

  lemma InPartStart(md: MsgData)
    ensures var r := Tally(md, []).(inflight := md.inflight, quota := md.maximum);
            MdRefs(r) == MdRefs(md) && InPart(md, 0) == r && |Qos2Only(md.inflight[..0])| == 0
  {
    assert md.inflight[..0] == [] && [] + md.inflight[0..] == md.inflight && Count12([]) == 0;
  }

  lemma InPartStep(md: MsgData, p: nat)
    requires p < |md.inflight|
    ensures var x := InPart(md, p);
            var i := |Qos2Only(md.inflight[..p])|;
            i < |x.inflight| && x.inflight[i] == md.inflight[p] &&
            var m := md.inflight[p];
            var y := CountIn(x, m);
            MdRefs(y) == MdRefs(x) && |x.inflight| - i == |md.inflight| - p && y.inflight == x.inflight &&
            if m.qos == 2 then InPart(md, p + 1) == y && |Qos2Only(md.inflight[..p + 1])| == i + 1
            else InPart(md, p + 1) == RemoveInflight(y, i) && |Qos2Only(md.inflight[..p + 1])| == i
  {
    hide Count12, Bytes12, ListBytes, ListRefs, Qos2Only;
    var l, m := md.inflight, md.inflight[p];
    var kept := Qos2Only(l[..p]);
    InPartLists(l, p);
    Sums12Append(l[..p], [m]);
    Sums12Append(kept, [m]);
    SumsOne(m);
    if m.qos != 2 {
      var y := CountIn(InPart(md, p), m);
      assert Without(y.inflight, |kept|) == kept + l[p + 1..];
    }
  }

  lemma InPartLists(l: seq<ClientMsg>, p: nat)
    requires p < |l|
    ensures l[..p + 1] == l[..p] + [l[p]]
    ensures var kept := Qos2Only(l[..p]);
            var x := kept + l[p..];
            x[|kept|] == l[p] && Qos2Only(l[..p + 1]) == (if l[p].qos == 2 then kept + [l[p]] else kept) &&
            kept + l[p + 1..] == Without(x, |kept|) && (kept + [l[p]]) + l[p + 1..] == x
  {
    hide Qos2Only;
    var kept := Qos2Only(l[..p]);
    assert l[..p + 1] == l[..p] + [l[p]] && l[p..] == [l[p]] + l[p + 1..];
    Qos2OnlyAppend(l[..p], [l[p]]);
    Qos2OnlyOne(l[p]);
    assert kept + [] == kept;
  }

  lemma Qos2OnlyOne(m: ClientMsg)
    ensures Qos2Only([m]) == if m.qos == 2 then [m] else []
  {
    assert [m][1..] == [];
  }

  lemma {:induction false} Qos2OnlyAppend(a: seq<ClientMsg>, b: seq<ClientMsg>)
    ensures Qos2Only(a + b) == Qos2Only(a) + Qos2Only(b)
  {
    if a == [] {
      assert a + b == b && [] + Qos2Only(b) == Qos2Only(b);
    } else {
      var head := if a[0].qos == 2 then [a[0]] else [];
      assert (a + b)[0] == a[0] && (a + b)[1..] == a[1..] + b;
      Qos2OnlyAppend(a[1..], b);
      assert Qos2Only(a + b) == head + (Qos2Only(a[1..]) + Qos2Only(b)) == (head + Qos2Only(a[1..])) + Qos2Only(b);
    }
  }

  lemma InPartEnd(limits: Limits, c: Context)
    ensures var y := c.(msgsIn := InPart(c.msgsIn, |c.msgsIn.inflight|));
            ResetIncoming(limits, c) == y.(msgsIn := Requeue(limits, y.msgsIn, 0))
  {
    hide Count12, Bytes12, ListBytes, Requeue, Qos2Only;
    var l := c.msgsIn.inflight;
    assert l[..|l|] == l && Qos2Only(l) + l[|l|..] == Qos2Only(l);
  }

  lemma TallyCounts(md: MsgData, inflight: seq<ClientMsg>)
    ensures Counts(Tally(md, inflight), 0)
  {
    assert inflight + md.queued[..0] == inflight;
  }

  lemma ResetAllBare(l: seq<ClientMsg>)
    ensures BareAll(ResetAll(l)) == BareAll(l)
  {}

  /** After a reconnect the outgoing counters are exact, whatever they were, and every message is
      still in line; a released message (waiting for PUBCOMP) goes on with PUBREL, never PUBLISH. */
  lemma ResetOutgoingRestores(limits: Limits, c: Context)
    ensures var r := ResetOutgoing(limits, c);
            CountersOk(r.msgsOut, true) && Lineup(r.msgsOut) == Lineup(c.msgsOut) && Lineup(r.msgsIn) == Lineup(c.msgsIn)
    ensures forall i :: 0 <= i < |c.msgsOut.inflight| && c.msgsOut.inflight[i].qos == 2 && c.msgsOut.inflight[i].state.WaitForPubcomp?
                        ==> i < |ResetOutgoing(limits, c).msgsOut.inflight| &&
                            ResetOutgoing(limits, c).msgsOut.inflight[i] == c.msgsOut.inflight[i].(state := ResendPubrel)
  {
    hide Count12, Bytes12, ListBytes;
    var reset := ResetAll(c.msgsOut.inflight);
    var out := Tally(c.msgsOut, c.msgsOut.inflight).(inflight := reset, quota := c.msgsOut.maximum);
    ResetAllBare(c.msgsOut.inflight);
    BareSums(reset, c.msgsOut.inflight);
    TallyCounts(c.msgsOut, reset);
    RequeueCounts(limits, out, 0);
    RequeueExtends(limits, out, 0);
    ResetAllBare(c.msgsOut.inflight);
    BareAllAppend(reset, c.msgsOut.queued);
    BareAllAppend(c.msgsOut.inflight, c.msgsOut.queued);
  }

  /** The queue loop only adds messages behind those in flight. */
  lemma {:induction false} RequeueExtends(limits: Limits, md: MsgData, i: nat)
    requires i <= |md.queued|
    ensures md.inflight <= Requeue(limits, md, i).inflight
    decreases |md.queued| - i
  {
    hide ReadyForFlight;
    if i < |md.queued| {
      var m := md.queued[i];
      var counted := Count(md, m);
      if ReadyForFlight(limits, counted, m.qos) {
        RequeueExtends(limits, DequeueFirst(SetQueued(counted, i, PublishState(m.qos))), i);
      } else {
        RequeueExtends(limits, counted, i + 1);
      }
    }
  }

  /** After a reconnect the incoming counters are exact, and of the messages in flight exactly those
      with QoS 2 are still in line, before the queued ones. */
  lemma ResetIncomingRestores(limits: Limits, c: Context)
    ensures var r := ResetIncoming(limits, c);
            CountersOk(r.msgsIn, true) && Lineup(r.msgsIn) == BareAll(Qos2Only(c.msgsIn.inflight) + c.msgsIn.queued) &&
            r.msgsOut == c.msgsOut
  {
    hide Count12, Bytes12, ListBytes;
    var kept := Qos2Only(c.msgsIn.inflight);
    TallyCounts(c.msgsIn, kept);
    RequeueCounts(limits, Tally(c.msgsIn, kept).(quota := Less(c.msgsIn.maximum, Count12(c.msgsIn.inflight))), 0);
  }

  // ---------- Releasing an incoming message ----------

  datatype Release = Release(rest: seq<ClientMsg>, deleted: bool, stop: Option<Rc>)

  /** What a PUBREL leaves in flight, if `queueOk(k)` says whether the `k`-th message it releases could
      be handed on. */
  function Released(l: seq<ClientMsg>, mid: Word16, queueOk: nat -> bool, k: nat): Release {
    if l == [] then Release([], false, None)
    else if l[0].mid != mid then
      var r := Released(l[1..], mid, queueOk, k);
      r.(rest := [l[0]] + r.rest)
    else if l[0].store.qos != 2 then Release(l, false, Some(Protocol))
    else if !l[0].store.hasTopic then Released(l[1..], mid, queueOk, k).(deleted := true)
    else if queueOk(k) then Released(l[1..], mid, queueOk, k + 1).(deleted := true)
    else Release(l, false, Some(NoMem))
  }

  /** The queue loop that follows: at most `maximum` messages are looked at, counted with those that
      were in flight; each with QoS 2 moves the head of the queue. */
  function ReleaseQueue(md: MsgData, i: nat, index: nat): MsgData
    requires i <= |md.queued|
    decreases |md.queued| - i
  {
    if i == |md.queued| || (md.maximum != 0 && index >= md.maximum) then md
    else if md.queued[i].qos == 2 then ReleaseQueue(DequeueFirst(SetQueued(md, i, WaitForPubrel)), i, index + 1)
    else ReleaseQueue(md, i + 1, index + 1)
  }

  /** `db__message_release_incoming` on the incoming data. */
  function ReleaseIncoming(md: MsgData, mid: Word16, queueOk: nat -> bool): (MsgData, Rc) {
    var r := Released(md.inflight, mid, queueOk, 0);
    var cut := Relist(md, r.rest, md.queued);
    if r.stop.Some? then (cut, r.stop.value)
    else (ReleaseQueue(cut, 0, |md.inflight|), if r.deleted then Success else NotFound)
  }

  lemma ReleaseQueueStep(md: MsgData, i: nat, index: nat)
    requires i < |md.queued|
    ensures ReleaseQueue(md, i, index) ==
      if md.maximum != 0 && index >= md.maximum then md
      else if md.queued[i].qos == 2 then ReleaseQueue(DequeueFirst(SetQueued(md, i, WaitForPubrel)), i, index + 1)
      else ReleaseQueue(md, i + 1, index + 1)
  {}

  lemma ReleaseQueueEnd(md: MsgData, index: nat)
    ensures ReleaseQueue(md, |md.queued|, index) == md
  {}

  lemma {:induction false} ReleaseQueueKeeps(md: MsgData, i: nat, index: nat)
    requires i <= |md.queued|
    ensures var r := ReleaseQueue(md, i, index); Lineup(r) == Lineup(md) && DriftOf(r) == DriftOf(md)
    decreases |md.queued| - i
  {
    hide DriftOf, Lineup;
    if i < |md.queued| && !(md.maximum != 0 && index >= md.maximum) {
      if md.queued[i].qos == 2 {
        var d := DequeueFirst(SetQueued(md, i, WaitForPubrel));
        DequeueSetKeeps(md, i, WaitForPubrel);
        ReleaseQueueKeeps(d, i, index + 1);
      } else {
        ReleaseQueueKeeps(md, i + 1, index + 1);
      }
    }
  }

  lemma DequeueSetKeeps(md: MsgData, i: nat, state: MsgState)
    requires i < |md.queued|
    ensures var d := DequeueFirst(SetQueued(md, i, state)); Lineup(d) == Lineup(md) && DriftOf(d) == DriftOf(md)
  {
    hide DriftOf, Lineup;
    SetKeepsLineup(md, i, md.queued[i], state);
    DequeueKeeps(SetQueued(md, i, state));
    SameLineupSameDrift(SetQueued(md, i, state), md);
  }

  predicate Names(l: seq<ClientMsg>, mid: Word16) {
    exists i :: 0 <= i < |l| && l[i].mid == mid
  }

  lemma NamesFirst(l: seq<ClientMsg>, mid: Word16)
    requires l != []
    ensures Names(l, mid) <==> l[0].mid == mid || Names(l[1..], mid)
  {
    if Names(l, mid) && l[0].mid != mid {
      var i :| 0 <= i < |l| && l[i].mid == mid;
      assert l[1..][i - 1].mid == mid;
    }
    if Names(l[1..], mid) {
      var i :| 0 <= i < |l[1..]| && l[1..][i].mid == mid;
      assert l[i + 1].mid == mid;
    }
  }

  /** The messages that a PUBREL names can all be released. */
  predicate AllQos2(l: seq<ClientMsg>, mid: Word16) {
    forall i :: 0 <= i < |l| && l[i].mid == mid ==> l[i].store.qos == 2
  }

  /** A PUBREL that is not stopped removes the messages it names and no other, all of them of QoS 2;
      it is not stopped if they are and each could be handed on. */
  lemma {:induction false} ReleasedRemovesNamed(l: seq<ClientMsg>, mid: Word16, queueOk: nat -> bool, k: nat)
    ensures var r := Released(l, mid, queueOk, k);
            (r.stop.None? ==> r.rest == Others(l, mid) && (r.deleted <==> Names(l, mid)) && AllQos2(l, mid)) &&
            (AllQos2(l, mid) && (forall n :: n >= k ==> queueOk(n)) ==> r.stop.None?)
  {
    if l == [] {
      assert !Names(l, mid);
    } else {
      hide Names;
      var t := l[1..];
      assert AllQos2(l, mid) <==> (l[0].mid == mid ==> l[0].store.qos == 2) && AllQos2(t, mid) by {
        assert forall i :: 1 <= i < |l| ==> l[i] == t[i - 1];
      }
      hide AllQos2;
      NamesFirst(l, mid);
      var n := if l[0].mid == mid && l[0].store.hasTopic then k + 1 else k;
      ReleasedRemovesNamed(t, mid, queueOk, n);
    }
  }

  // ---------- Writing ----------

  datatype SendResult = Sent | Oversize | Failed

  datatype Written = Written(l: seq<ClientMsg>, quota: nat, sends: nat, ok: bool)

  predicate Expired(m: ClientMsg, now: nat) {
    m.store.expiryTime != 0 && now > m.store.expiryTime
  }

  /** The loop of `db__message_write` over the incoming messages in flight, if `out(k)` is the result of
      the `k`-th packet sent. */
  function WriteIn(l: seq<ClientMsg>, quota: nat, maximum: nat, now: nat, out: nat -> SendResult, k: nat): Written {
    if l == [] then Written([], quota, k, true)
    else
      var m := l[0];
      if Expired(m, now) then WriteIn(l[1..], quota, maximum, now, out, k)
      else if m.state.SendPubrec? || m.state.ResendPubcomp? then
        var q := if m.state.ResendPubcomp? && quota < maximum then quota + 1 else quota;
        if out(k).Sent? then
          var r := WriteIn(l[1..], q, maximum, now, out, k + 1);
          r.(l := [m.(state := WaitForPubrel)] + r.l)
        else Written(l, q, k + 1, false)
      else
        var r := WriteIn(l[1..], quota, maximum, now, out, k);
        r.(l := [m] + r.l)
  }

  /** A message once its PUBLISH or PUBREL is sent. */
  function AfterSend(m: ClientMsg): ClientMsg {
    match m.state
    case PublishQos1 => m.(dup := true, state := WaitForPuback)
    case PublishQos2 => m.(dup := true, state := WaitForPubrec)
    case ResendPubrel => m.(state := WaitForPubcomp)
    case _ => m
  }

  predicate ToPublish(m: ClientMsg) {
    m.state.PublishQos0? || m.state.PublishQos1? || m.state.PublishQos2?
  }

  /** The loop of `db__message_write` over the outgoing messages in flight. */
  function WriteOut(l: seq<ClientMsg>, now: nat, out: nat -> SendResult, k: nat): Written {
    if l == [] then Written([], 0, k, true)
    else
      var m := l[0];
      if Expired(m, now) then WriteOut(l[1..], now, out, k)
      else if ToPublish(m) || m.state.ResendPubrel? then
        if out(k).Failed? || (out(k).Oversize? && m.state.ResendPubrel?) then Written(l, 0, k + 1, false)
        else if out(k).Oversize? || m.state.PublishQos0? then WriteOut(l[1..], now, out, k + 1)
        else
          var r := WriteOut(l[1..], now, out, k + 1);
          r.(l := [AfterSend(m)] + r.l)
      else
        var r := WriteOut(l[1..], now, out, k);
        r.(l := [m] + r.l)
  }

  /** The loop of `db__message_write` over the queued incoming messages, from position `i`. */
  function WriteQueueIn(md: MsgData, outMaximum: nat, i: nat, out: nat -> SendResult, k: nat): (MsgData, bool)
    requires i <= |md.queued|
    decreases |md.queued| - i
  {
    if i == |md.queued| || (outMaximum != 0 && md.quota == 0) then (md, true)
    else if md.queued[i].qos == 2 then
      var sent := out(k).Sent?;
      var d := DequeueFirst(SetQueued(md, i, if sent then WaitForPubrel else SendPubrec));
      if sent then WriteQueueIn(d, outMaximum, i, out, k + 1) else (d, false)
    else WriteQueueIn(md, outMaximum, i + 1, out, k)
  }

  lemma WriteQueueInStep(md: MsgData, outMaximum: nat, i: nat, out: nat -> SendResult, k: nat)
    requires i < |md.queued|
    ensures WriteQueueIn(md, outMaximum, i, out, k) ==
      if outMaximum != 0 && md.quota == 0 then (md, true)
      else if md.queued[i].qos != 2 then WriteQueueIn(md, outMaximum, i + 1, out, k)
      else if out(k).Sent? then WriteQueueIn(DequeueFirst(SetQueued(md, i, WaitForPubrel)), outMaximum, i, out, k + 1)
      else (DequeueFirst(SetQueued(md, i, SendPubrec)), false)
  {}

  lemma WriteQueueInEnd(md: MsgData, outMaximum: nat, out: nat -> SendResult, k: nat)
    ensures WriteQueueIn(md, outMaximum, |md.queued|, out, k) == (md, true)
  {}

  /** The message at position `i` of the queue, once the head has moved. */
  predicate Movable(md: MsgData, i: nat) {
    if i == 0 then md.inflight != [] else i <= |md.queued|
  }

  /** That message now waits for PUBREL. */
  function Mark(md: MsgData, i: nat): MsgData
    requires Movable(md, i)
  {
    if i == 0 then
      var last := |md.inflight| - 1;
      md.(inflight := md.inflight[last := md.inflight[last].(state := WaitForPubrel)])
    else SetQueued(md, i - 1, WaitForPubrel)
  }

  lemma MarkedQueue(md: MsgData, i: nat)
    requires i < |md.queued|
    ensures |SetQueued(md, i, SendPubrec).queued| == |md.queued|
  {}

  /** Marking the message after the head moved is the same as marking it before. */
  lemma LateMark(md: MsgData, i: nat)
    requires i < |md.queued|
    ensures var d := DequeueFirst(SetQueued(md, i, SendPubrec));
            Movable(d, i) && Mark(d, i) == DequeueFirst(SetQueued(md, i, WaitForPubrel)) &&
            |Mark(d, i).queued| == |md.queued| - 1
  {
    var a, b := SetQueued(md, i, SendPubrec), SetQueued(md, i, WaitForPubrel);
    if i > 0 {
      assert a.queued[1..][i - 1 := a.queued[i].(state := WaitForPubrel)] == b.queued[1..];
    }
  }

  lemma {:induction false} WriteQueueInKeeps(md: MsgData, outMaximum: nat, i: nat, out: nat -> SendResult, k: nat)
    requires i <= |md.queued|
    ensures var r := WriteQueueIn(md, outMaximum, i, out, k).0; Lineup(r) == Lineup(md) && DriftOf(r) == DriftOf(md)
    decreases |md.queued| - i
  {
    hide DriftOf, Lineup;
    if i < |md.queued| && !(outMaximum != 0 && md.quota == 0) {
      if md.queued[i].qos == 2 {
        var state := if out(k).Sent? then WaitForPubrel else SendPubrec;
        DequeueSetKeeps(md, i, state);
        WriteQueueInKeeps(DequeueFirst(SetQueued(md, i, state)), outMaximum, i, out, k + 1);
      } else {
        WriteQueueInKeeps(md, outMaximum, i + 1, out, k);
      }
    }
  }

  /** How many queued outgoing messages the quota admits. */
  function Admitted(md: MsgData): (k: nat)
    ensures k <= |md.queued|
  {
    if md.maximum == 0 || |md.queued| <= md.quota then |md.queued| else md.quota
  }

  /** `db__message_write` for an active client, and whether every packet could be sent. */
  function Write(c: Context, now: nat, out: nat -> SendResult): (Context, bool) {
    var a := WriteIn(c.msgsIn.inflight, c.msgsIn.quota, c.msgsIn.maximum, now, out, 0);
    var c1 := c.(msgsIn := Relist(c.msgsIn, a.l, c.msgsIn.queued).(quota := a.quota));
    if !a.ok then (c1, false)
    else
      var b := WriteOut(c1.msgsOut.inflight, now, out, a.sends);
      var c2 := c1.(msgsOut := Relist(c1.msgsOut, b.l, c1.msgsOut.queued));
      if !b.ok then (c2, false)
      else
        var q := WriteQueueIn(c2.msgsIn, c2.msgsOut.maximum, 0, out, b.sends);
        var c3 := c2.(msgsIn := q.0);
        if !q.1 then (c3, false)
        else (c3.(msgsOut := Open(c3.msgsOut, Admitted(c3.msgsOut))), true)
  }

  /** Writing keeps the counters as exact as they were. */
  lemma WriteCounted(c: Context, now: nat, out: nat -> SendResult)
    ensures var w := Write(c, now, out).0;
            DriftOf(w.msgsIn) == DriftOf(c.msgsIn) && DriftOf(w.msgsOut) == DriftOf(c.msgsOut) && w.maximumQos == c.maximumQos
  {
    hide Count12, Bytes12, ListBytes, WriteIn, WriteOut, WriteQueueIn, Open, Admitted, Lineup;
    var a := WriteIn(c.msgsIn.inflight, c.msgsIn.quota, c.msgsIn.maximum, now, out, 0);
    var c1 := c.(msgsIn := Relist(c.msgsIn, a.l, c.msgsIn.queued).(quota := a.quota));
    var b := WriteOut(c1.msgsOut.inflight, now, out, a.sends);
    var c2 := c1.(msgsOut := Relist(c1.msgsOut, b.l, c1.msgsOut.queued));
    WriteQueueInKeeps(c2.msgsIn, c2.msgsOut.maximum, 0, out, b.sends);
    OpenKeepsDrift(c2.msgsOut, Admitted(c2.msgsOut));
  }

  lemma OpenKeepsDrift(md: MsgData, k: nat)
    requires k <= |md.queued|
    ensures DriftOf(Open(md, k)) == DriftOf(md)
  {
    OpenKeepsLineup(md, k);
    SameLineupSameDrift(Open(md, k), md);
  }

  /** Changing the state of messages moves no counter. */
  lemma RelistSame(md: MsgData, a: seq<ClientMsg>, b: seq<ClientMsg>, queued: seq<ClientMsg>)
    requires BareAll(a) == BareAll(b)
    ensures Relist(md, a, queued) == Relist(md, b, queued).(inflight := a)
  {
    hide Count12, Bytes12, ListBytes, BareAll;
    BareSums(a, b);
    assert |a| == |BareAll(a)| == |BareAll(b)| == |b|;
  }

  /** A write that succeeds leaves nothing in flight unsent or expired. */
  lemma {:induction false} WriteOutSettles(l: seq<ClientMsg>, now: nat, out: nat -> SendResult, k: nat)
    requires WriteOut(l, now, out, k).ok
    ensures forall m :: m in WriteOut(l, now, out, k).l ==> !ToPublish(m) && !m.state.ResendPubrel? && !Expired(m, now)
  {
    if l != [] {
      var m := l[0];
      if Expired(m, now) {
        WriteOutSettles(l[1..], now, out, k);
      } else if ToPublish(m) || m.state.ResendPubrel? {
        WriteOutSettles(l[1..], now, out, k + 1);
      } else {
        WriteOutSettles(l[1..], now, out, k);
      }
    }
  }

  predicate Expires(l: seq<ClientMsg>, now: nat) {
    exists i :: 0 <= i < |l| && l[i].qos > 0 && Expired(l[i], now)
  }

  /** Only messages with QoS 0 are published as such. */
  ghost predicate AllFit(l: seq<ClientMsg>) {
    forall i :: 0 <= i < |l| && l[i].state.PublishQos0? ==> l[i].qos == 0
  }

  /** Only expiry or an oversize packet takes a message with a QoS above 0 out of the line. */
  lemma {:induction false} WriteOutKeepsAbove0(l: seq<ClientMsg>, now: nat, out: nat -> SendResult, k: nat)
    requires forall n :: n >= k ==> !out(n).Oversize?
    requires !Expires(l, now)
    requires AllFit(l)
    ensures BareAll(Above0(WriteOut(l, now, out, k).l)) == BareAll(Above0(l))
  {
    if l != [] {
      var m, t := l[0], l[1..];
      assert forall i :: 0 <= i < |t| ==> t[i] == l[i + 1];
      assert !(m.qos > 0 && Expired(m, now));
      if Expired(m, now) {
        WriteOutKeepsAbove0(t, now, out, k);
      } else if ToPublish(m) || m.state.ResendPubrel? {
        WriteOutKeepsAbove0(t, now, out, k + 1);
        var r := WriteOut(t, now, out, k + 1);
        Above0Cons(AfterSend(m), r.l, m, t);
      } else {
        WriteOutKeepsAbove0(t, now, out, k);
        Above0Cons(m, WriteOut(t, now, out, k).l, m, t);
      }
    }
  }

  lemma Above0Cons(x: ClientMsg, a: seq<ClientMsg>, y: ClientMsg, b: seq<ClientMsg>)
    requires Bare(x) == Bare(y) && BareAll(Above0(a)) == BareAll(Above0(b))
    ensures BareAll(Above0([x] + a)) == BareAll(Above0([y] + b))
  {
    Above0Append([x], a);
    Above0Append([y], b);
    assert x.qos == y.qos by { assert Bare(x).qos == x.qos && Bare(y).qos == y.qos; }
    assert [x][1..] == [] && [y][1..] == [];
    BareAllAppend(Above0([x]), Above0(a));
    BareAllAppend(Above0([y]), Above0(b));
    assert BareAll(Above0([x])) == BareAll(Above0([y]));
  }

  // ---------- Inserting ----------

  datatype Admission = Refuse(rc: nat) | Admit(state: MsgState, rc: nat)

  /** What becomes of a message for a client: `already` says that the client has had it. */
  function Admittance(limits: Limits, c: Context, dir: Direction, qos: Qos, retain: bool, already: bool): Admission {
    var md := Md(c, dir);
    if !c.hasId then Refuse(0)
    else if !c.v5 && !limits.allowDuplicates && dir.Outgoing? && !retain && already then Refuse(0)
    else if !c.connected && qos == 0 && !limits.queueQos0 && !c.lazyBridge then Refuse(2)
    else if c.connected && ReadyForFlight(limits, md, qos) then
      if dir.Outgoing? then Admit(PublishState(qos), 0)
      else if qos == 2 then Admit(WaitForPubrel, 0)
      else Refuse(1)
    else if ReadyForQueue(limits, c, qos, md) then Admit(QueuedState, if c.connected then 2 else 0)
    else Refuse(2)
  }

  function Delivered(c: Context, dir: Direction, mid: Word16, qos: Qos, retain: bool, stored: Stored, state: MsgState): Context {
    var m := ClientMsg(stored, mid, if qos > c.maximumQos then c.maximumQos else qos, retain, state, false);
    var added := WithMd(c, dir, AddMessage(Md(c, dir), m, qos));
    if dir.Outgoing? && m.qos > 0 then added.(msgsOut := added.msgsOut.(quota := Less(added.msgsOut.quota, 1))) else added
  }

  /** Inserting keeps the counters of every client exact as far as they are meant to be. */
  lemma DeliveredCounted(c: Context, dir: Direction, mid: Word16, qos: Qos, retain: bool, stored: Stored, state: MsgState)
    requires ContextCounted(c)
    ensures ContextCounted(Delivered(c, dir, mid, qos, retain, stored, state))
  {
    hide DriftOf, AddMessage;
    var m := ClientMsg(stored, mid, if qos > c.maximumQos then c.maximumQos else qos, retain, state, false);
    var added := AddMessage(Md(c, dir), m, qos);
    AddMovesDriftIff(Md(c, dir), m, qos, c.maximumQos);
    QuotaIrrelevant(added, Less(added.quota, 1));
  }

  /** Inserting without quota leaves the flight alone, and with quota it leaves the queue alone. */
  lemma InsertFlow(limits: Limits, c: Context, mid: Word16, qos: Qos, retain: bool, s: Stored, already: bool)
    requires qos > 0 && c.msgsOut.maximum != 0
    ensures var a := Admittance(limits, c, Outgoing, qos, retain, already);
            a.Admit? ==>
              var r := Delivered(c, Outgoing, mid, qos, retain, s, a.state).msgsOut;
              (c.msgsOut.quota == 0 ==> r.inflight == c.msgsOut.inflight) &&
              (c.connected && c.msgsOut.quota > 0 && limits.maxInflightBytes == 0 ==> r.queued == c.msgsOut.queued)
  {
    hide ReadyForQueue, Delivered;
    var a := Admittance(limits, c, Outgoing, qos, retain, already);
    if a.Admit? { DeliveredList(c, mid, qos, retain, s, a.state); }
  }

  lemma DeliveredList(c: Context, mid: Word16, qos: Qos, retain: bool, s: Stored, state: MsgState)
    ensures var r := Delivered(c, Outgoing, mid, qos, retain, s, state).msgsOut;
            if state.QueuedState? then r.inflight == c.msgsOut.inflight else r.queued == c.msgsOut.queued
  {}

  lemma DeliveredRefs(c: Context, dir: Direction, mid: Word16, qos: Qos, retain: bool, stored: Stored, state: MsgState)
    ensures ContextRefs(Delivered(c, dir, mid, qos, retain, stored, state)) == ContextRefs(c) + multiset{stored}
  {
    hide MdRefs, AddMessage;
    var m := ClientMsg(stored, mid, if qos > c.maximumQos then c.maximumQos else qos, retain, state, false);
    var md := Md(c, dir);
    var added := AddMessage(md, m, qos);
    AddRefs(md, m, qos);
    QuotaIrrelevant(added, Less(added.quota, 1));
    assert ContextRefs(WithMd(c, dir, added)) == ContextRefs(c) + multiset{stored} by {
      if dir.Incoming? {
        assert (MdRefs(md) + multiset{stored}) + MdRefs(c.msgsOut) == (MdRefs(md) + MdRefs(c.msgsOut)) + multiset{stored};
      }
    }
  }

  /** The messages after handing a message to clients one after the other, and who has had which. */
  function Handed(limits: Limits, cs: seq<Context>, dests: set<(Stored, nat)>, s: Stored, ds: seq<Delivery>)
    : (r: (seq<Context>, set<(Stored, nat)>))
    ensures |r.0| == |cs|
    decreases |ds|
  {
    if ds == [] then (cs, dests)
    else
      var r := HandedOne(limits, cs, dests, s, ds[0]);
      Handed(limits, r.0, r.1, s, ds[1..])
  }

  function HandedOne(limits: Limits, cs: seq<Context>, dests: set<(Stored, nat)>, s: Stored, d: Delivery)
    : (seq<Context>, set<(Stored, nat)>)
  {
    if d.Retain? || d.client >= |cs| then (cs, dests)
    else
      var c := d.client;
      var a := Admittance(limits, cs[c], Outgoing, d.qos, d.retain, (s, cs[c].id) in dests);
      if a.Refuse? then (cs, dests)
      else
        (cs[c := Delivered(cs[c], Outgoing, d.mid, d.qos, d.retain, s, a.state)],
         Noted(limits, Outgoing, d.retain, dests, s, cs[c].id))
  }

  /** Under which client identifiers a message was had, once `s` was inserted for one with `id`. */
  function Noted(limits: Limits, dir: Direction, retain: bool, dests: set<(Stored, nat)>, s: Stored, id: nat): set<(Stored, nat)> {
    if !limits.allowDuplicates && dir.Outgoing? && !retain then dests + {(s, id)} else dests
  }

  /** Where references come from: handing the message to a client, or retaining it for a topic. */
  datatype Delivery = ToClient(client: nat, mid: Word16, qos: Qos, retain: bool) | Retain(topic: nat)

  /** Without duplicates, a client (not using v5) is not handed a message again that was handed to a
      client with its identifier, be it another connection. */
  lemma HandedOnce(limits: Limits, cs: seq<Context>, dests: set<(Stored, nat)>, s: Stored, a: Delivery, b: Delivery)
    requires !limits.allowDuplicates && a.ToClient? && b.ToClient? && a.client < |cs| && b.client < |cs|
    requires cs[a.client].id == cs[b.client].id && !cs[b.client].v5 && !a.retain && !b.retain
    requires HandedOne(limits, cs, dests, s, a).0 != cs
    ensures HandedOne(limits, HandedOne(limits, cs, dests, s, a).0, HandedOne(limits, cs, dests, s, a).1, s, b)
            == HandedOne(limits, cs, dests, s, a)
  {
    hide ReadyForFlight, ReadyForQueue, AddMessage;
  }

  lemma QuotaIrrelevant(md: MsgData, quota: nat)
    ensures DriftOf(md.(quota := quota)) == DriftOf(md) && MdRefs(md.(quota := quota)) == MdRefs(md)
    ensures Lineup(md.(quota := quota)) == Lineup(md)
  {}
}
