/** What a client resends on a new connection, what it publishes, and when it refuses a PUBLISH. */
module ClientReconnect {
  import opened Basics
  import opened ClientSpec
  import opened ClientRuns
  import opened ClientPhases

  // ---------- States fit their QoS ----------

  /** The states that an outgoing message can be in. */
  predicate FitsQos(m: OutMsg) {
    if m.qos == 1 then m.state in {Invalid, PublishQos1, WaitForPuback}
    else m.state in {Invalid, PublishQos2, WaitForPubrec, ResendPubrel, WaitForPubcomp}
  }

  ghost predicate StatesFit(s: State) {
    AllQos2(s) && forall i :: 0 <= i < |s.out| ==> FitsQos(s.out[i])
  }

  lemma ReleaseFits(s: State, i: nat)
    requires i <= |s.out| && StatesFit(s)
    ensures StatesFit(Release(s, i))
  {
    hide Release;
    ReleaseFrame(s, i);
  }

  lemma RemoveFits(s: State, mid: Word16, qos: nat)
    requires StatesFit(s)
    ensures StatesFit(RemoveOut(s, mid, qos).0)
  {
    var i := FirstOut(s.out, mid);
    if i < |s.out| {
      var r := s.out[..i] + s.out[i + 1..];
      assert forall j :: 0 <= j < |r| ==> r[j] == if j < i then s.out[j] else s.out[j + 1];
    }
  }

  lemma ConnackFits(s: State, reason: Byte, receiveMaximum: Option<Word16>)
    requires StatesFit(s)
    ensures StatesFit(DoConnack(s, reason, receiveMaximum).0)
  {
    hide Retry;
    var max := MaximumAfter(s, receiveMaximum);
    RetryFrame(s.(outMax := max, outQuota := max, active := true), 0);
  }

  lemma PubrecFits(s: State, mid: Word16, reason: Byte)
    requires StatesFit(s)
    ensures StatesFit(DoPubrec(s, mid, reason).0)
  {
    hide Release, RemoveOut, Hand;
    if s.active && mid != 0 {
      var s1 := UpdateOut(s, mid, WaitForPubcomp, 2).0;
      HandFrame(s1, SentPubrel(mid));
      RemoveFits(s, mid, 2);
      ReleaseFits(IncSendQuota(RemoveOut(s, mid, 2).0), 0);
    }
  }

  lemma StepFits(s: State, e: Event)
    requires StatesFit(s)
    ensures StatesFit(Step(s, e).0)
  {
    hide Hand, Release, Retry, RemoveOut, DoPubrec, DoIncoming, DoPubrel, DoConnack, Reset;
    StepKeepsQos2(s, e);
    match e
    case Publish(qos) => ReleaseFits(Queued(s, qos), 0);
    case PublishQos0 => HandFrame(s.(lastMid := NextMid(s.lastMid)), SentQos0(NextMid(s.lastMid)));
    case Disconnect => HandFrame(s.(active := false), SentDisconnect);
    case Ack(mid, qos) =>
      RemoveFits(IncSendQuota(s), mid, qos);
      ReleaseFits(RemoveOut(IncSendQuota(s), mid, qos).0, 0);
    case Pubrec(mid, reason) => PubrecFits(s, mid, reason);
    case Incoming(qos, mid) => IncomingOnlyIn(s, qos, mid);
    case Pubrel(mid) => PubrelOnlyIn(s, mid);
    case SocketLoss =>
    case Reconnect(ok) => ResetShape(s);
    case Connack(reason, max) => ConnackFits(s, reason, max);
  }

  lemma IncomingOnlyIn(s: State, qos: nat, mid: Word16)
    ensures DoIncoming(s, qos, mid).0.out == s.out
  {
    hide Hand;
    HandFrame(IncReceiveQuota(DecReceiveQuota(s)), SentPuback(mid));
    HandFrame(DecReceiveQuota(s), SentPubrec(mid));
  }

  lemma PubrelOnlyIn(s: State, mid: Word16)
    ensures DoPubrel(s, mid).0.out == s.out
  {
    hide Hand, FirstIn;
    HandFrame(IncReceiveQuota(s), SentPubcomp(mid));
  }

  /** Over any run each outgoing message is in a state of its QoS. */
  lemma {:induction false} RunFits(s: State, es: seq<Event>)
    requires StatesFit(s)
    ensures StatesFit(RunEvents(s, es))
    decreases |es|
  {
    hide Step, StatesFit;
    if es != [] {
      StepFits(s, es[0]);
      RunFits(Step(s, es[0]).0, es[1..]);
    }
  }

  // ---------- A new connection ----------

  /** What section 4.4 has the client send again for a message: with QoS 1 the PUBLISH, as a duplicate; with
      QoS 2 the PUBLISH before its PUBREC and the PUBREL behind it, and nothing if it was never sent. */
  function Redo(m: OutMsg): seq<Sent> {
    if m.qos == 1 then [SentPublish(m.uid, m.mid, 1, true)]
    else match m.state
      case WaitForPubrec => [SentPublish(m.uid, m.mid, 2, true)]
      case PublishQos2 => [SentPublish(m.uid, m.mid, 2, true)]
      case WaitForPubcomp => [SentPubrel(m.mid)]
      case ResendPubrel => [SentPubrel(m.mid)]
      case _ => []
  }

  /** For the first `k` messages of the list. */
  function RedoFirst(out: seq<OutMsg>, k: nat): seq<Sent> {
    if out == [] || k == 0 then [] else Redo(out[0]) + RedoFirst(out[1..], k - 1)
  }

  lemma {:induction false} ResendsAre(out: seq<OutMsg>, back: seq<OutMsg>, k: nat)
    requires |back| == |out| && forall i :: 0 <= i < |out| ==> FitsQos(out[i])
    requires forall i :: 0 <= i < |out| ==> back[i] == out[i].(state := if i < k then ResetState(out[i]) else Invalid)
    ensures Resends(back) == RedoFirst(out, k)
    decreases |out|
  {
    if out != [] {
      var t, u := out[1..], back[1..];
      assert forall i :: 0 <= i < |t| ==> t[i] == out[i + 1] && u[i] == back[i + 1];
      ResendsAre(t, u, if k > 0 then k - 1 else 0);
      ResendsOne(out[0], back[0], k);
      if k == 0 {
        assert RedoFirst(t, 0) == RedoFirst(out, 0) == [];
      }
    }
  }

  lemma ResendsOne(m: OutMsg, b: OutMsg, k: nat)
    requires FitsQos(m) && b == m.(state := if 0 < k then ResetState(m) else Invalid)
    ensures (if b.state.PublishQos1? || b.state.PublishQos2? then [SentPublish(b.uid, b.mid, b.qos, true)]
             else if b.state.ResendPubrel? || b.state.WaitForPubcomp? then [SentPubrel(b.mid)]
             else []) == if k == 0 then [] else Redo(m)
  {}

  /** Whatever a new client has been through: once it is connected again and the server accepts, it has sent
      again, in order, what is due for its first messages, as many as its inflight maximum. The client is
      then active, and only a v5 server has set its maximum. */
  lemma ReconnectResends(v5: bool, outMax: nat, inMax: nat, plan: seq<bool>, es: seq<Event>, receiveMaximum: Option<Word16>)
    ensures var s := RunEvents(Fresh(v5, outMax, inMax, plan), es);
            var r := Step(Step(s, Reconnect(true)).0, Connack(0, receiveMaximum)).0;
            r.handed == s.handed + RedoFirst(s.out, s.outMax) && r.active &&
            r.outMax == r.outQuota == (if s.v5 && receiveMaximum.Some? then receiveMaximum.value else s.outMax)
  {
    hide RunEvents, Reset, Retry, Resends, RedoFirst, Redo, ResetState, FitsQos;
    var f := Fresh(v5, outMax, inMax, plan);
    RunFits(f, es);
    var s := RunEvents(f, es);
    ResetShape(s);
    var s1 := Step(s, Reconnect(true)).0;
    var max := MaximumAfter(s1, receiveMaximum);
    var s2 := s1.(outMax := max, outQuota := max, active := true);
    RetryHands(s2, 0);
    RetryFrame(s2, 0);
    assert s2.out[0..] == s2.out;
    ResendsAre(s.out, s2.out, s.outMax);
  }

  // ---------- Publishing ----------

  /** The first unsent messages, as many as the quota allows, as they are published. */
  function Unsent(out: seq<OutMsg>, quota: nat): seq<Sent> {
    if out == [] || quota == 0 then []
    else if out[0].state.Invalid? then
      [SentPublish(out[0].uid, out[0].mid, out[0].qos, out[0].dup)] + Unsent(out[1..], quota - 1)
    else Unsent(out[1..], quota)
  }

  /** When sends succeed, a release publishes the unsent messages in order, as many as there is quota. */
  lemma {:induction false} ReleaseHands(s: State, i: nat)
    requires i <= |s.out| && s.sockOpen && s.plan == []
    ensures Release(s, i).handed == s.handed + Unsent(s.out[i..], s.outQuota)
    decreases |s.out| - i
  {
    assert s.handed + [] == s.handed;
    if i < |s.out| && s.outQuota > 0 {
      var m, t := s.out[i], s.out[i + 1..];
      assert s.out[i..][0] == m && s.out[i..][1..] == t;
      if m.state.Invalid? {
        var s0, p := s.(out := s.out[i := Released(m)]), SentPublish(m.uid, m.mid, m.qos, m.dup);
        var s1 := Hand(s0, p).0;
        assert s1.out[i + 1..] == t;
        ReleaseHands(s1.(outQuota := s1.outQuota - 1), i + 1);
        assert (s.handed + [p]) + Unsent(t, s.outQuota - 1) == s.handed + ([p] + Unsent(t, s.outQuota - 1));
      } else {
        ReleaseHands(s, i + 1);
      }
    }
  }

  lemma {:induction false} NoneUnsent(out: seq<OutMsg>, m: OutMsg, quota: nat)
    requires (forall i :: 0 <= i < |out| ==> !out[i].state.Invalid?) && m.state.Invalid? && quota > 0
    ensures Unsent(out + [m], quota) == [SentPublish(m.uid, m.mid, m.qos, m.dup)]
  {
    if out == [] {
      assert (out + [m])[1..] == [] && (out + [m])[0] == m;
    } else {
      assert (out + [m])[1..] == out[1..] + [m] && (out + [m])[0] == out[0];
      NoneUnsent(out[1..], m, quota);
    }
  }

  /** A message that is published while nothing waits and there is quota goes out at once, with the QoS asked
      for, under the next identifier and not as a duplicate; without quota it waits. */
  lemma PublishedAtOnce(s: State, qos: Qos12)
    requires s.sockOpen && s.plan == [] && forall i :: 0 <= i < |s.out| ==> !s.out[i].state.Invalid?
    ensures var r := Step(s, Publish(qos)).0;
            var mid := if s.lastMid == 0xFFFF then 1 else s.lastMid + 1;
            r.lastMid == mid && |r.out| == |s.out| + 1 && r.out[|s.out|].mid == mid && r.out[|s.out|].qos == qos &&
            r.handed == s.handed + (if s.outQuota > 0 then [SentPublish(s.accepted, mid, qos, false)] else [])
  {
    hide Release, Unsent;
    var q := Queued(s, qos);
    ReleaseHands(q, 0);
    ReleaseFrame(q, 0);
    assert q.out[0..] == q.out == s.out + [q.out[|s.out|]];
    if s.outQuota > 0 {
      NoneUnsent(s.out, q.out[|s.out|], s.outQuota);
    } else {
      NoQuotaNothing(q.out);
    }
  }

  lemma NoQuotaNothing(out: seq<OutMsg>)
    ensures Unsent(out, 0) == []
  {}

  // ---------- Refusing ----------

  /** The receive quota and the messages that wait for their PUBREL cover the receive maximum. */
  predicate Covered(s: State, inMax: nat) {
    s.inMax == inMax && s.inQuota <= inMax <= s.inQuota + |s.inc|
  }

  ghost predicate SameWindow(s: State, r: State) {
    r.inMax == s.inMax && r.inQuota == s.inQuota && r.inc == s.inc
  }

  lemma {:induction false} ResetInQuota(s: State, i: nat)
    requires i <= |s.inc| && AllQos2(s)
    ensures var r := ResetIn(s, i);
            r.inMax == s.inMax && r.inc == s.inc && r.inQuota <= s.inQuota <= r.inQuota + (|s.inc| - i)
    decreases |s.inc| - i
  {
    if i < |s.inc| { ResetInQuota(ResetInOne(s, i), i + 1); }
  }

  lemma ResetCovers(s: State)
    requires AllQos2(s)
    ensures Covered(Reset(s), s.inMax)
  {
    hide ResetIn, ResetOut;
    var s0 := s.(inQuota := s.inMax, inLen := 0);
    ResetInQuota(s0, 0);
    var s1 := ResetIn(s0, 0);
    ResetOutSame(s1.(outQuota := s1.outMax, outLen := 0), 0);
  }

  lemma {:induction false} ResetOutSame(s: State, i: nat)
    requires i <= |s.out|
    ensures SameWindow(s, ResetOut(s, i))
    decreases |s.out| - i
  {
    hide ResetState;
    if i < |s.out| { ResetOutSame(ResetOutOne(s, i), i + 1); }
  }

  lemma {:induction false} RemoveInCovers(s: State, mid: Word16)
    ensures var r := RemoveIn(s, mid).0;
            r.inMax == s.inMax && r.inQuota == s.inQuota && |s.inc| - 1 <= |r.inc| <= |s.inc| &&
            (s.inc == [] ==> r.inc == [])
  {
    hide FirstIn;
  }

  lemma PubrelCovers(s: State, mid: Word16, inMax: nat)
    requires Covered(s, inMax)
    ensures Covered(DoPubrel(s, mid).0, inMax)
  {
    hide Hand, RemoveIn;
    var s0 := IncReceiveQuota(s);
    HandFrame(s0, SentPubcomp(mid));
    RemoveInCovers(Hand(s0, SentPubcomp(mid)).0, mid);
  }

  lemma IncomingCovers(s: State, qos: nat, mid: Word16, inMax: nat)
    requires Covered(s, inMax)
    ensures Covered(DoIncoming(s, qos, mid).0, inMax)
  {
    hide Hand;
    HandFrame(IncReceiveQuota(DecReceiveQuota(s)), SentPuback(mid));
    HandFrame(DecReceiveQuota(s), SentPubrec(mid));
  }

  lemma {:induction false} StepCovers(s: State, e: Event, inMax: nat)
    requires Covered(s, inMax) && AllQos2(s)
    ensures Covered(Step(s, e).0, inMax)
  {
    hide Hand, Release, Retry, RemoveOut, UpdateOut, DoIncoming, DoPubrel, Reset;
    match e
    case Publish(qos) => ReleaseFrame(Queued(s, qos), 0);
    case PublishQos0 => HandFrame(s.(lastMid := NextMid(s.lastMid)), SentQos0(NextMid(s.lastMid)));
    case Disconnect => HandFrame(s.(active := false), SentDisconnect);
    case Ack(mid, qos) =>
      RemovedSameWindow(IncSendQuota(s), mid, qos);
      ReleaseFrame(RemoveOut(IncSendQuota(s), mid, qos).0, 0);
    case Pubrec(mid, reason) =>
      RemovedSameWindow(s, mid, 2);
      HandFrame(UpdateOut(s, mid, WaitForPubcomp, 2).0, SentPubrel(mid));
      ReleaseFrame(IncSendQuota(RemoveOut(s, mid, 2).0), 0);
    case Incoming(qos, mid) => IncomingCovers(s, qos, mid, inMax);
    case Pubrel(mid) => PubrelCovers(s, mid, inMax);
    case SocketLoss =>
    case Reconnect(ok) => ResetCovers(s);
    case Connack(reason, max) =>
      RetryFrame(s.(outMax := MaximumAfter(s, max), outQuota := MaximumAfter(s, max), active := true), 0);
  }

  lemma RemovedSameWindow(s: State, mid: Word16, qos: nat)
    ensures SameWindow(s, RemoveOut(s, mid, qos).0) && SameWindow(s, UpdateOut(s, mid, WaitForPubcomp, qos).0)
  {
    hide FirstOut;
  }

  lemma {:induction false} RunCovers(s: State, es: seq<Event>, inMax: nat)
    requires Covered(s, inMax) && AllQos2(s)
    ensures Covered(RunEvents(s, es), inMax)
    decreases |es|
  {
    hide Step, AllQos2, Covered;
    if es != [] {
      StepCovers(s, es[0], inMax);
      StepKeepsQos2(s, es[0]);
      RunCovers(Step(s, es[0]).0, es[1..], inMax);
    }
  }

  /** Section 4.9, on the receiving side: a connected client, whatever it has been through, refuses a PUBLISH
      of QoS 1 or 2 that has an identifier only if it uses v5 and as many messages as its receive maximum
      wait for their PUBREL. */
  lemma RefusesOnlyAtMaximum(v5: bool, outMax: nat, inMax: nat, plan: seq<bool>, es: seq<Event>, qos: Qos12, mid: Word16)
    ensures var s := RunEvents(Fresh(v5, outMax, inMax, plan), es);
            s.sockOpen && s.active && mid != 0 && Step(s, Incoming(qos, mid)).1 == Protocol ==> s.v5 && |s.inc| >= inMax
  {
    hide RunEvents, Hand;
    var f := Fresh(v5, outMax, inMax, plan);
    RunCovers(f, es, inMax);
    var s := RunEvents(f, es);
    SendCodes(IncReceiveQuota(DecReceiveQuota(s)), SentPuback(mid));
    SendCodes(DecReceiveQuota(s), SentPubrec(mid));
  }

  lemma SendCodes(s: State, p: Sent)
    ensures Hand(s, p).1 != Protocol
  {}

  // ---------- When the client is active ----------

  /** A client becomes active by an accepting CONNACK that arrives and by nothing else, and stops being so by
      a disconnect or a new connection and by nothing else. */
  lemma {:induction false} ActiveRule(s: State, e: Event)
    ensures var r := Step(s, e).0;
            (r.active <==> (e.Connack? && e.reasonCode == 0 && s.sockOpen) || (s.active && !e.Disconnect? && !e.Reconnect?)) &&
            (r.sockOpen <==> if e.Reconnect? then e.ok else s.sockOpen && !e.SocketLoss?)
  {
    hide Hand, Release, Retry, RemoveOut, UpdateOut, RemoveIn, Reset;
    match e
    case Publish(qos) => ReleaseFrame(Queued(s, qos), 0);
    case PublishQos0 => HandFrame(s.(lastMid := NextMid(s.lastMid)), SentQos0(NextMid(s.lastMid)));
    case Disconnect => HandFrame(s.(active := false), SentDisconnect);
    case Ack(mid, qos) =>
      RemovalsKeep(IncSendQuota(s), mid, qos);
      ReleaseFrame(RemoveOut(IncSendQuota(s), mid, qos).0, 0);
    case Pubrec(mid, reason) =>
      RemovalsKeep(s, mid, 2);
      HandFrame(UpdateOut(s, mid, WaitForPubcomp, 2).0, SentPubrel(mid));
      ReleaseFrame(IncSendQuota(RemoveOut(s, mid, 2).0), 0);
    case Incoming(qos, mid) =>
      HandFrame(IncReceiveQuota(DecReceiveQuota(s)), SentPuback(mid));
      HandFrame(DecReceiveQuota(s), SentPubrec(mid));
    case Pubrel(mid) =>
      HandFrame(IncReceiveQuota(s), SentPubcomp(mid));
      RemovalsKeep(IncReceiveQuota(s), mid, 2);
      RemovalsKeep(Hand(IncReceiveQuota(s), SentPubcomp(mid)).0, mid, 2);
    case SocketLoss =>
    case Reconnect(ok) =>
    case Connack(reason, max) =>
      RetryFrame(s.(outMax := MaximumAfter(s, max), outQuota := MaximumAfter(s, max), active := true), 0);
  }

  lemma {:induction false} RemovalsKeep(s: State, mid: Word16, qos: nat)
    ensures var a, b, c := RemoveOut(s, mid, qos).0, UpdateOut(s, mid, WaitForPubcomp, qos).0, RemoveIn(s, mid);
            a.active == s.active && a.sockOpen == s.sockOpen && b.active == s.active && b.sockOpen == s.sockOpen &&
            c.0.active == s.active && c.0.sockOpen == s.sockOpen && (c.2 == Success ==> c.1.Some?)
  {
    hide FirstOut, FirstIn;
  }

  /** A CONNACK is answered for by its code: accepted, refused for a reason that v3 knows, or an error. */
  lemma ConnackCode(s: State, reason: Byte, receiveMaximum: Option<Word16>)
    requires s.sockOpen
    ensures var rc := Step(s, Connack(reason, receiveMaximum)).1;
            (rc == Success <==> reason == 0) && (rc == ConnRefused <==> 1 <= reason <= 5) && (rc == Protocol <==> reason > 5)
  {
    hide Retry;
  }
}
