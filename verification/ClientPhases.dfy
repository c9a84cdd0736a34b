/** Packet identifiers and the QoS 2 phase of the client over whole runs. */
module ClientPhases {
  import opened Basics
  import opened ClientSpec
  import opened ClientRuns

  // ---------- Packet identifiers ----------

  /** The `k`-th identifier that is generated after `last`. */
  function MidAfter(last: Word16, k: nat): Word16
  {
    if k == 0 then last else NextMid(MidAfter(last, k - 1))
  }

  lemma {:induction false} MidClosedForm(last: Word16, k: nat)
    requires k > 0
    ensures MidAfter(last, k) as int == (last as int + k - 1) % 65535 + 1
  {
    if k > 1 {
      MidClosedForm(last, k - 1);
      NextMidForm(MidAfter(last, k - 1));
      var x := last as int + k - 2;
      assert MidAfter(last, k) as int == (x % 65535 + 1) % 65535 + 1;
      NextResidue(x);
    } else {
      assert MidAfter(last, 0) == last;
      NextMidForm(last);
    }
  }

  lemma NextMidForm(last: Word16)
    ensures NextMid(last) as int == last as int % 65535 + 1
  {}

  lemma NextResidue(x: nat)
    ensures (x % 65535 + 1) % 65535 == (x + 1) % 65535
  {
    var q, r := x / 65535, x % 65535;
    if r + 1 < 65535 { Residue(x + 1, q, r + 1); } else { Residue(x + 1, q + 1, 0); }
  }

  /** Any 65535 identifiers in a row are non-zero and pairwise distinct. */
  lemma MidsDistinct(last: Word16, i: nat, j: nat)
    requires 0 < i < j <= i + 65534
    ensures MidAfter(last, i) != 0 && MidAfter(last, i) != MidAfter(last, j)
  {
    MidClosedForm(last, i);
    MidClosedForm(last, j);
    ShiftedResidue(last as int + i - 1, j - i);
  }

  lemma ShiftedResidue(a: nat, d: nat)
    requires 0 < d < 65535
    ensures a % 65535 != (a + d) % 65535
  {
    var q, r := a / 65535, a % 65535;
    if r + d < 65535 {
      Residue(a + d, q, r + d);
    } else {
      Residue(a + d, q + 1, r + d - 65535);
    }
  }

  lemma Residue(x: nat, q: nat, r: nat)
    requires x == 65535 * q + r && r < 65535
    ensures x % 65535 == r
  {}

  // ---------- The QoS 2 phase ----------

  /** The message was acknowledged with PUBREC: what is left of its delivery is the PUBREL. */
  predicate PastPubrec(m: OutMsg) {
    m.qos == 2 && (m.state.WaitForPubcomp? || m.state.ResendPubrel?)
  }

  /** How often the message with identity `u` was handed to the sender as a PUBLISH. */
  function PublishCount(u: nat, handed: seq<Sent>): nat {
    if handed == [] then 0
    else PublishCount(u, handed[..|handed| - 1]) +
         (var p := handed[|handed| - 1]; if p.SentPublish? && p.uid == u then 1 else 0)
  }

  lemma PublishCountSnoc(u: nat, handed: seq<Sent>, p: Sent)
    ensures PublishCount(u, handed + [p]) == PublishCount(u, handed) + if p.SentPublish? && p.uid == u then 1 else 0
  {
    assert (handed + [p])[..|handed|] == handed;
  }

  /** The message was accepted, and if it is still on the list it is past its PUBREC. */
  predicate Past(s: State, u: nat) {
    u < s.accepted && forall i :: 0 <= i < |s.out| && s.out[i].uid == u ==> PastPubrec(s.out[i])
  }

  /** Nothing was published again, and the phase did not go back. */
  ghost predicate StaysPast(s: State, r: State, u: nat) {
    Past(r, u) && PublishCount(u, r.handed) == PublishCount(u, s.handed)
  }

  lemma HandCounts(s: State, p: Sent, u: nat)
    ensures PublishCount(u, Hand(s, p).0.handed) ==
            PublishCount(u, s.handed) + if s.sockOpen && p.SentPublish? && p.uid == u then 1 else 0
  {
    PublishCountSnoc(u, s.handed, p);
  }

  lemma {:induction false} ReleaseStaysPast(s: State, i: nat, u: nat)
    requires i <= |s.out| && Past(s, u)
    ensures StaysPast(s, Release(s, i), u)
    decreases |s.out| - i
  {
    if i < |s.out| && s.outQuota > 0 {
      if s.out[i].state.Invalid? {
        hide PublishCount;
        var m := s.out[i];
        var s0 := s.(out := s.out[i := Released(m)]);
        var p := SentPublish(m.uid, m.mid, m.qos, m.dup);
        HandFrame(s0, p);
        HandCounts(s0, p, u);
        var (s1, rc) := Hand(s0, p);
        assert Past(s1, u);
        if rc == Success {
          ReleaseStaysPast(s1.(outQuota := s1.outQuota - 1), i + 1, u);
        }
      } else {
        ReleaseStaysPast(s, i + 1, u);
      }
    }
  }

  lemma RetryOneStaysPast(s: State, i: nat, u: nat)
    requires i < |s.out| && Past(s, u)
    ensures StaysPast(s, RetryOne(s, i), u)
  {
    hide Hand, PublishCount;
    var m := s.out[i];
    var s0 := s.(out := s.out[i := m.(dup := true)]);
    HandFrame(s0, SentPublish(m.uid, m.mid, m.qos, true));
    HandFrame(s0, SentPubrel(m.mid));
    HandCounts(s0, SentPublish(m.uid, m.mid, m.qos, true), u);
    HandCounts(s0, SentPubrel(m.mid), u);
  }

  lemma {:induction false} RetryStaysPast(s: State, i: nat, u: nat)
    requires i <= |s.out| && Past(s, u)
    ensures StaysPast(s, Retry(s, i), u)
    decreases |s.out| - i
  {
    hide RetryOne, PublishCount, Past;
    if i < |s.out| {
      RetryOneStaysPast(s, i, u);
      RetryStaysPast(RetryOne(s, i), i + 1, u);
    }
  }

  /** At a reconnect the message at position `k` keeps its phase exactly if `k` is below the
      inflight maximum; beyond it the message counts as unsent and will be published again. */
  lemma ResetKeepsPhaseIff(s: State, k: nat)
    requires k < |s.out| && PastPubrec(s.out[k])
    requires forall j :: 0 <= j < |s.inc| ==> s.inc[j].qos == 2
    ensures |Reset(s).out| == |s.out|
    ensures PastPubrec(Reset(s).out[k]) <==> k < s.outMax
    ensures k >= s.outMax ==> Reset(s).out[k].state.Invalid?
  {
    ResetShape(s);
  }

  lemma ResetShape(s: State)
    requires forall j :: 0 <= j < |s.inc| ==> s.inc[j].qos == 2
    ensures var r := Reset(s);
            r == s.(out := r.out, outQuota := r.outQuota, outLen := |s.out|, inQuota := r.inQuota, inLen := |s.inc|) &&
            SameMessages(s.out, r.out) &&
            forall j :: 0 <= j < |s.out| ==>
              r.out[j] == s.out[j].(state := if j < s.outMax then ResetState(s.out[j]) else Invalid)
  {
    hide ResetState, ResetIn, ResetOut;
    var s0 := s.(inQuota := s.inMax, inLen := 0);
    ResetInShape(s0, 0);
    var s1 := ResetIn(s0, 0);
    ResetOutShape(s1.(outQuota := s1.outMax, outLen := 0), 0);
  }

  /** What is assumed of an event: a reconnect finds a list that fits into the window. */
  predicate Fits(s: State, e: Event) {
    e.Reconnect? ==> |s.out| <= s.outMax
  }

  predicate FittingRun(s: State, es: seq<Event>)
    decreases |es|
  {
    es == [] || (Fits(s, es[0]) && FittingRun(Step(s, es[0]).0, es[1..]))
  }

  ghost predicate AllQos2(s: State) {
    forall j :: 0 <= j < |s.inc| ==> s.inc[j].qos == 2
  }

  lemma RemoveStaysPast(s: State, mid: Word16, qos: nat, u: nat)
    requires Past(s, u)
    ensures StaysPast(s, RemoveOut(s, mid, qos).0, u)
  {
    var i := FirstOut(s.out, mid);
    if i < |s.out| {
      var r := s.out[..i] + s.out[i + 1..];
      assert forall j :: 0 <= j < |r| ==> r[j] == if j < i then s.out[j] else s.out[j + 1];
    }
  }

  lemma PublishStaysPast(s: State, qos: Qos12, u: nat)
    requires Past(s, u)
    ensures StaysPast(s, DoPublish(s, qos), u)
  {
    hide PublishCount;
    ReleaseStaysPast(Queued(s, qos), 0, u);
  }

  lemma AckStaysPast(s: State, mid: Word16, qos: Qos12, u: nat)
    requires Past(s, u)
    ensures StaysPast(s, DoAck(s, mid, qos).0, u)
  {
    hide PublishCount, RemoveOut, Release;
    if s.active && mid != 0 {
      var s1 := IncSendQuota(s);
      RemoveStaysPast(s1, mid, qos, u);
      ReleaseStaysPast(RemoveOut(s1, mid, qos).0, 0, u);
    }
  }

  lemma PubrecStaysPast(s: State, mid: Word16, reason: Byte, u: nat)
    requires Past(s, u)
    ensures StaysPast(s, DoPubrec(s, mid, reason).0, u)
  {
    hide PublishCount, RemoveOut, Release, Hand;
    if s.active && mid != 0 {
      if reason < 0x80 || !s.v5 {
        var s1 := UpdateOut(s, mid, WaitForPubcomp, 2).0;
        assert Past(s1, u);
        HandFrame(s1, SentPubrel(mid));
        HandCounts(s1, SentPubrel(mid), u);
      } else {
        RemoveStaysPast(s, mid, 2, u);
        ReleaseStaysPast(IncSendQuota(RemoveOut(s, mid, 2).0), 0, u);
      }
    }
  }

  lemma IncomingStaysPast(s: State, qos: nat, mid: Word16, u: nat)
    requires Past(s, u)
    ensures StaysPast(s, DoIncoming(s, qos, mid).0, u)
  {
    hide PublishCount, Hand;
    HandFrame(IncReceiveQuota(DecReceiveQuota(s)), SentPuback(mid));
    HandCounts(IncReceiveQuota(DecReceiveQuota(s)), SentPuback(mid), u);
    HandFrame(DecReceiveQuota(s), SentPubrec(mid));
    HandCounts(DecReceiveQuota(s), SentPubrec(mid), u);
  }

  lemma PubrelStaysPast(s: State, mid: Word16, u: nat)
    requires Past(s, u)
    ensures StaysPast(s, DoPubrel(s, mid).0, u)
  {
    hide PublishCount, Hand, FirstIn;
    HandFrame(IncReceiveQuota(s), SentPubcomp(mid));
    HandCounts(IncReceiveQuota(s), SentPubcomp(mid), u);
  }

  lemma ConnackStaysPast(s: State, reason: Byte, receiveMaximum: Option<Word16>, u: nat)
    requires Past(s, u)
    ensures StaysPast(s, DoConnack(s, reason, receiveMaximum).0, u)
  {
    hide PublishCount;
    var max := MaximumAfter(s, receiveMaximum);
    RetryStaysPast(s.(outMax := max, outQuota := max, active := true), 0, u);
  }

  lemma StepStaysPast(s: State, e: Event, u: nat)
    requires AllQos2(s) && Past(s, u) && Fits(s, e)
    ensures StaysPast(s, Step(s, e).0, u)
  {
    hide PublishCount, DoPublish, DoAck, DoPubrec, DoIncoming, DoPubrel, DoConnack, Reset;
    match e
    case Publish(qos) => PublishStaysPast(s, qos, u);
    case Ack(mid, qos) => AckStaysPast(s, mid, qos, u);
    case Pubrec(mid, reason) => PubrecStaysPast(s, mid, reason, u);
    case Incoming(qos, mid) => IncomingStaysPast(s, qos, mid, u);
    case Pubrel(mid) => PubrelStaysPast(s, mid, u);
    case PublishQos0 => HandStaysPast(s.(lastMid := NextMid(s.lastMid)), SentQos0(NextMid(s.lastMid)), u);
    case Disconnect => HandStaysPast(s.(active := false), SentDisconnect, u);
    case SocketLoss =>
    case Reconnect(ok) => ResetShape(s);
    case Connack(reason, max) => ConnackStaysPast(s, reason, max, u);
  }

  lemma HandStaysPast(s: State, p: Sent, u: nat)
    requires Past(s, u) && !p.SentPublish?
    ensures StaysPast(s, Hand(s, p).0, u)
  {
    hide Hand, PublishCount;
    HandFrame(s, p);
    HandCounts(s, p, u);
  }

  /** Every entry of the incoming list has QoS 2, whatever happens. */
  lemma StepKeepsQos2(s: State, e: Event)
    requires AllQos2(s)
    ensures AllQos2(Step(s, e).0)
  {
    hide Retry, Hand, DoPublish, DoAck, DoPubrec, DoIncoming, DoPubrel, DoConnack, Reset;
    match e
    case Publish(qos) => PublishOnlyOut(s, qos);
    case Ack(mid, qos) => AckOnlyOut(s, mid, qos);
    case Pubrec(mid, reason) => PubrecOnlyOut(s, mid, reason);
    case Incoming(qos, mid) => IncomingKeepsQos2(s, qos, mid);
    case Pubrel(mid) => PubrelKeepsQos2(s, mid);
    case PublishQos0 => HandFrame(s.(lastMid := NextMid(s.lastMid)), SentQos0(NextMid(s.lastMid)));
    case Disconnect => HandFrame(s.(active := false), SentDisconnect);
    case SocketLoss =>
    case Reconnect(ok) => ResetShape(s);
    case Connack(reason, max) => ConnackOnlyOut(s, reason, max);
  }

  lemma IncomingKeepsQos2(s: State, qos: nat, mid: Word16)
    requires AllQos2(s)
    ensures AllQos2(DoIncoming(s, qos, mid).0)
  {
    hide Hand;
    HandFrame(IncReceiveQuota(DecReceiveQuota(s)), SentPuback(mid));
    HandFrame(DecReceiveQuota(s), SentPubrec(mid));
  }

  lemma PubrelKeepsQos2(s: State, mid: Word16)
    requires AllQos2(s)
    ensures AllQos2(DoPubrel(s, mid).0)
  {
    hide Hand, FirstIn;
    HandFrame(IncReceiveQuota(s), SentPubcomp(mid));
  }

  /** What the outgoing operations leave alone. */
  ghost predicate SameIncoming(s: State, r: State) {
    && r.inc == s.inc && r.inLen == s.inLen && r.received == s.received
    && r.delivered == s.delivered && r.dropped == s.dropped
  }

  lemma PublishOnlyOut(s: State, qos: Qos12)
    ensures SameIncoming(s, DoPublish(s, qos))
  {
    ReleaseFrame(Queued(s, qos), 0);
  }

  lemma AckOnlyOut(s: State, mid: Word16, qos: Qos12)
    ensures SameIncoming(s, DoAck(s, mid, qos).0)
  {
    hide Release;
    ReleaseFrame(RemoveOut(IncSendQuota(s), mid, qos).0, 0);
  }

  lemma PubrecOnlyOut(s: State, mid: Word16, reason: Byte)
    ensures SameIncoming(s, DoPubrec(s, mid, reason).0)
  {
    hide Release, Hand;
    HandFrame(UpdateOut(s, mid, WaitForPubcomp, 2).0, SentPubrel(mid));
    ReleaseFrame(IncSendQuota(RemoveOut(s, mid, 2).0), 0);
  }

  lemma ConnackOnlyOut(s: State, reason: Byte, receiveMaximum: Option<Word16>)
    ensures SameIncoming(s, DoConnack(s, reason, receiveMaximum).0)
  {
    hide Retry;
    var max := MaximumAfter(s, receiveMaximum);
    RetryFrame(s.(outMax := max, outQuota := max, active := true), 0);
  }

  /** A successful PUBREC takes the first message with its identifier past the PUBREC phase. */
  lemma PubrecReleases(s: State, mid: Word16, reason: Byte)
    requires s.sockOpen && s.active && mid != 0 && (reason < 0x80 || !s.v5)
    requires FirstOut(s.out, mid) < |s.out| && s.out[FirstOut(s.out, mid)].qos == 2
    requires DistinctUids(s)
    ensures Past(Step(s, Pubrec(mid, reason)).0, s.out[FirstOut(s.out, mid)].uid)
  {
    HandFrame(UpdateOut(s, mid, WaitForPubcomp, 2).0, SentPubrel(mid));
  }

  ghost predicate DistinctUids(s: State) {
    && (forall i :: 0 <= i < |s.out| ==> s.out[i].uid < s.accepted)
    && (forall i, j :: 0 <= i < j < |s.out| ==> s.out[i].uid != s.out[j].uid)
  }

  /** Section 4.3.3: once past its PUBREC, a message is not published again over any number of
      reconnects that find the list within the inflight maximum. */
  lemma {:induction false} NeverPublishedAgain(s: State, es: seq<Event>, u: nat)
    requires AllQos2(s) && Past(s, u) && FittingRun(s, es)
    ensures StaysPast(s, RunEvents(s, es), u)
    decreases |es|
  {
    hide PublishCount, Step;
    if es != [] {
      StepStaysPast(s, es[0], u);
      StepKeepsQos2(s, es[0]);
      NeverPublishedAgain(Step(s, es[0]).0, es[1..], u);
    }
  }

  /** What a successful CONNACK hands to the sender for each message of the list, in order: a
      PUBLISH marked as a duplicate before the PUBREC, only the PUBREL behind it. */
  function Resends(out: seq<OutMsg>): seq<Sent>
    decreases |out|
  {
    if out == [] then []
    else
      var m := out[0];
      (if m.state.PublishQos1? || m.state.PublishQos2? then [SentPublish(m.uid, m.mid, m.qos, true)]
       else if m.state.ResendPubrel? || m.state.WaitForPubcomp? then [SentPubrel(m.mid)]
       else []) + Resends(out[1..])
  }

  lemma RetryOneHands(s: State, i: nat)
    requires i < |s.out| && s.sockOpen
    ensures var r := RetryOne(s, i);
            r.sockOpen && |r.out| == |s.out| && r.out[i + 1..] == s.out[i + 1..] &&
            r.handed + Resends(r.out[i + 1..]) == s.handed + Resends(s.out[i..])
  {
    hide Hand;
    var m := s.out[i];
    var s0 := s.(out := s.out[i := m.(dup := true)]);
    HandFrame(s0, SentPublish(m.uid, m.mid, m.qos, true));
    HandFrame(s0, SentPubrel(m.mid));
    assert s.out[i..][0] == m && s.out[i..][1..] == s.out[i + 1..] && s0.out[i + 1..] == s.out[i + 1..];
  }

  lemma {:induction false} RetryHands(s: State, i: nat)
    requires i <= |s.out| && s.sockOpen
    ensures Retry(s, i).handed == s.handed + Resends(s.out[i..])
    decreases |s.out| - i
  {
    hide RetryOne;
    if i < |s.out| {
      hide Resends;
      RetryOneHands(s, i);
      RetryHands(RetryOne(s, i), i + 1);
    } else {
      assert s.handed + [] == s.handed;
    }
  }
}
