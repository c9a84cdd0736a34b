/** The QoS 2 message flow from a new client on: when a message whose PUBREC was handled is published
    again, and when not. */
module ClientQos2 {
  import opened Basics
  import opened ClientSpec
  import opened ClientRuns
  import opened ClientPhases
  import opened ClientConservation

  // ---------- Runs from a new client ----------

  /** The books keep the identities of pending messages apart. */
  lemma {:induction false} ConservedDistinct(s: State)
    requires OutConserved(s)
    ensures DistinctUids(s)
  {
    KeptElements(s.accepted, s.removed);
    assert forall i :: 0 <= i < |s.out| ==> s.out[i].uid == Uids(s.out)[i];
  }

  lemma {:induction false} RunAppend(s: State, es: seq<Event>, fs: seq<Event>)
    ensures RunEvents(s, es + fs) == RunEvents(RunEvents(s, es), fs)
    decreases |es|
  {
    hide Step;
    if es == [] {
      assert es + fs == fs;
    } else {
      assert (es + fs)[1..] == es[1..] + fs;
      RunAppend(Step(s, es[0]).0, es[1..], fs);
    }
  }

  /** A PUBREC that reports success and names a QoS 2 message of the list first. */
  predicate PubrecAccepted(s: State, mid: Word16, reason: Byte) {
    var i := FirstOut(s.out, mid);
    s.sockOpen && s.active && mid != 0 && (reason < 0x80 || !s.v5) && i < |s.out| && s.out[i].qos == 2
  }

  /** Section 4.3.3: in every run of a new client, once a PUBREC was handled for a message, its PUBLISH
      is not sent again, over any number of reconnects that find the list within the maximum. */
  lemma {:induction false} PubrecEndsPublishing(v5: bool, outMax: nat, inMax: nat, plan: seq<bool>,
                             before: seq<Event>, mid: Word16, reason: Byte, after: seq<Event>)
    requires var s := RunEvents(Fresh(v5, outMax, inMax, plan), before);
             PubrecAccepted(s, mid, reason) && FittingRun(Step(s, Pubrec(mid, reason)).0, after)
    ensures var s := RunEvents(Fresh(v5, outMax, inMax, plan), before);
            var r := RunEvents(Fresh(v5, outMax, inMax, plan), before + ([Pubrec(mid, reason)] + after));
            var u := s.out[FirstOut(s.out, mid)].uid;
            Past(r, u) && PublishCount(u, r.handed) == PublishCount(u, s.handed)
  {
    hide RunEvents, Step, PublishCount, FirstOut, Past, FittingRun, OutConserved, DistinctUids, AllQos2;
    var s0 := Fresh(v5, outMax, inMax, plan);
    FreshConserved(v5, outMax, inMax, plan);
    RunConserves(s0, before);
    var s := RunEvents(s0, before);
    ConservedDistinct(s);
    var u := s.out[FirstOut(s.out, mid)].uid;
    PubrecReleases(s, mid, reason);
    var t := Step(s, Pubrec(mid, reason)).0;
    StepKeepsQos2(s, Pubrec(mid, reason));
    PubrecPublishesNothing(s, mid, reason, u);
    NeverPublishedAgain(t, after, u);
    RunAppend(s0, before, [Pubrec(mid, reason)] + after);
    RunCons(s, Pubrec(mid, reason), after);
  }

  lemma {:induction false} RunCons(s: State, e: Event, es: seq<Event>)
    ensures RunEvents(s, [e] + es) == RunEvents(Step(s, e).0, es)
  {
    hide Step;
    assert ([e] + es)[1..] == es;
  }

  lemma {:induction false} PubrecPublishesNothing(s: State, mid: Word16, reason: Byte, u: nat)
    requires PubrecAccepted(s, mid, reason)
    ensures PublishCount(u, Step(s, Pubrec(mid, reason)).0.handed) == PublishCount(u, s.handed)
  {
    hide PublishCount, Hand, FirstOut;
    HandCounts(UpdateOut(s, mid, WaitForPubcomp, 2).0, SentPubrel(mid), u);
  }

  // ---------- Reconnects that find too long a list ----------

  lemma {:induction false} RetryOneCounts(s: State, i: nat, u: nat)
    requires i < |s.out|
    ensures PublishCount(u, RetryOne(s, i).handed) >= PublishCount(u, s.handed)
  {
    hide PublishCount, Hand;
    var m := s.out[i];
    var s0 := s.(out := s.out[i := m.(dup := true)]);
    HandCounts(s0, SentPublish(m.uid, m.mid, m.qos, true), u);
    HandCounts(s0, SentPubrel(m.mid), u);
  }

  lemma {:induction false} RetryCounts(s: State, i: nat, u: nat)
    requires i <= |s.out|
    ensures PublishCount(u, Retry(s, i).handed) >= PublishCount(u, s.handed)
    decreases |s.out| - i
  {
    hide PublishCount, RetryOne;
    if i < |s.out| {
      RetryOneCounts(s, i, u);
      RetryCounts(RetryOne(s, i), i + 1, u);
    }
  }

  /** A release with enough quota, and sends that succeed, publishes an unsent message. */
  lemma {:induction false} ReleasePublishes(s: State, i: nat, k: nat)
    requires i <= k < |s.out| && s.out[k].state.Invalid? && s.outQuota > k - i && s.sockOpen && s.plan == []
    ensures PublishCount(s.out[k].uid, Release(s, i).handed) > PublishCount(s.out[k].uid, s.handed)
    decreases k - i
  {
    hide PublishCount, Hand;
    var u := s.out[k].uid;
    if s.out[i].state.Invalid? {
      var m := s.out[i];
      var s0 := s.(out := s.out[i := Released(m)]);
      var p := SentPublish(m.uid, m.mid, m.qos, m.dup);
      HandFrame(s0, p);
      HandCounts(s0, p, u);
      var s2 := Hand(s0, p).0.(outQuota := s.outQuota - 1);
      if i < k {
        ReleasePublishes(s2, i + 1, k);
      } else {
        ReleaseCounts(s2, i + 1, u);
      }
    } else {
      ReleasePublishes(s, i + 1, k);
    }
  }

  lemma {:induction false} ReleaseCounts(s: State, i: nat, u: nat)
    requires i <= |s.out|
    ensures PublishCount(u, Release(s, i).handed) >= PublishCount(u, s.handed)
    decreases |s.out| - i
  {
    hide PublishCount, Hand;
    if i < |s.out| && s.outQuota > 0 {
      if s.out[i].state.Invalid? {
        var m := s.out[i];
        var s0 := s.(out := s.out[i := Released(m)]);
        var p := SentPublish(m.uid, m.mid, m.qos, m.dup);
        HandFrame(s0, p);
        HandCounts(s0, p, u);
        var (s1, rc) := Hand(s0, p);
        if rc == Success { ReleaseCounts(s1.(outQuota := s1.outQuota - 1), i + 1, u); }
      } else {
        ReleaseCounts(s, i + 1, u);
      }
    }
  }

  /** A reconnect at which the message at position `k` lies beyond the maximum, a CONNACK that allows
      more than `k` messages, and one more message to publish. */
  function Beyond(receiveMaximum: Option<Word16>): seq<Event> {
    [Reconnect(true), Connack(0, receiveMaximum), Publish(1)]
  }

  /** The condition on reconnects is needed: beyond the maximum, a message is published again whatever
      its phase was. */
  lemma {:induction false} BeyondMaximumPublishedAgain(s: State, k: nat, receiveMaximum: Option<Word16>)
    requires AllQos2(s) && s.outMax <= k < |s.out| && s.plan == [] && MaximumAfter(s, receiveMaximum) > k
    ensures var u := s.out[k].uid;
            PublishCount(u, RunEvents(s, Beyond(receiveMaximum)).handed) > PublishCount(u, s.handed)
  {
    hide RunEvents, Reset, Retry, Release, PublishCount, AllQos2;
    var u := s.out[k].uid;
    ResetUnsends(s, k);
    var t := Step(s, Reconnect(true)).0;
    var t1 := t.(outMax := MaximumAfter(t, receiveMaximum), outQuota := MaximumAfter(t, receiveMaximum), active := true);
    var v := Step(t, Connack(0, receiveMaximum)).0;
    assert v == Retry(t1, 0);
    RetryFrame(t1, 0);
    RetryCounts(t1, 0, u);
    ReleasePublishes(Queued(v, 1), 0, k);
    RunThree(s, Reconnect(true), Connack(0, receiveMaximum), Publish(1));
  }

  lemma {:induction false} ResetUnsends(s: State, k: nat)
    requires AllQos2(s) && s.outMax <= k < |s.out|
    ensures var r := Reset(s);
            |r.out| == |s.out| && r.out[k].state.Invalid? && r.out[k].uid == s.out[k].uid &&
            r.handed == s.handed && r.plan == s.plan && r.v5 == s.v5 && r.outMax == s.outMax
  {
    ResetShape(s);
  }

  // ---------- A reachable example ----------

  /** Two QoS 2 messages whose PUBRECs were handled, and a server that then allows only one. */
  function TwoReleased(): seq<Event> {
    [Reconnect(true), Connack(0, None), Publish(2)] + [Publish(2), Pubrec(1, 0), Pubrec(2, 0)] +
    [Reconnect(true), Connack(0, Some(1)), SocketLoss]
  }

  /** The client with its messages in the given states, after `handed`. */
  function Two(quota: nat, out: seq<OutMsg>, mid: Word16, handed: seq<Sent>): State {
    State(true, true, true, out, quota, 2, |out|, [], 2, 2, 0, mid, [], handed, |out|, {}, 0, [], [])
  }

  function First(state: MsgState): OutMsg { OutMsg(0, 1, 2, state, false) }
  function Second(state: MsgState): OutMsg { OutMsg(1, 2, 2, state, false) }
  const PUBLISHES: seq<Sent> := [SentPublish(0, 1, 2, false), SentPublish(1, 2, 2, false)]

  lemma {:induction false} Connected()
    ensures var s0 := Fresh(true, 2, 2, []);
            Step(s0, Reconnect(true)).0 == s0.(sockOpen := true) &&
            Step(s0.(sockOpen := true), Connack(0, None)).0 == s0.(sockOpen := true, active := true)
  {}

  lemma {:induction false} Published()
    ensures var s := RunEvents(Fresh(true, 2, 2, []), [Reconnect(true), Connack(0, None), Publish(2)]);
            s == Two(1, [First(WaitForPubrec)], 1, PUBLISHES[..1])
  {
    hide RunEvents, Release, Reset, Retry;
    var s0 := Fresh(true, 2, 2, []);
    var s2 := s0.(sockOpen := true, active := true);
    var q := Queued(s2, 2);
    assert q.out == [First(Invalid)];
    ReleaseLast(q, First(WaitForPubrec), SentPublish(0, 1, 2, false));
    Connected();
    RunThree(s0, Reconnect(true), Connack(0, None), Publish(2));
  }

  /** Only the last message of the list is unsent. */
  lemma {:induction false} ReleaseLast(s: State, m: OutMsg, p: Sent)
    requires 1 <= |s.out| <= 2 && s.outQuota > 0 && s.sockOpen && s.plan == []
    requires s.out[|s.out| - 1].state.Invalid? && (|s.out| == 2 ==> !s.out[0].state.Invalid?)
    requires m == Released(s.out[|s.out| - 1]) && p == SentPublish(m.uid, m.mid, m.qos, m.dup)
    ensures Release(s, 0) == s.(out := s.out[..|s.out| - 1] + [m], outQuota := s.outQuota - 1, handed := s.handed + [p])
  {
    var n := |s.out| - 1;
    assert s.out[n := m] == s.out[..n] + [m];
    assert Release(s, n) == Release(Hand(s.(out := s.out[n := m]), p).0.(outQuota := s.outQuota - 1), n + 1);
  }

  function Acknowledged(): State {
    Two(0, [First(WaitForPubcomp), Second(WaitForPubcomp)], 2, PUBLISHES + [SentPubrel(1), SentPubrel(2)])
  }

  lemma {:induction false} PubrecsHandled()
    ensures var s := Two(1, [First(WaitForPubrec)], 1, PUBLISHES[..1]);
            RunEvents(s, [Publish(2), Pubrec(1, 0), Pubrec(2, 0)]) == Acknowledged()
  {
    hide RunEvents, Release;
    var s := Two(1, [First(WaitForPubrec)], 1, PUBLISHES[..1]);
    var q := Queued(s, 2);
    assert q.out == [First(WaitForPubrec), Second(Invalid)];
    ReleaseLast(q, Second(WaitForPubrec), SentPublish(1, 2, 2, false));
    var s1 := Two(0, [First(WaitForPubrec), Second(WaitForPubrec)], 2, PUBLISHES);
    assert Step(s, Publish(2)).0 == s1;
    var s2 := Two(0, [First(WaitForPubcomp), Second(WaitForPubrec)], 2, PUBLISHES + [SentPubrel(1)]);
    assert Step(s1, Pubrec(1, 0)).0 == s2;
    SecondPubrec(s2);
    RunThree(s, Publish(2), Pubrec(1, 0), Pubrec(2, 0));
  }

  lemma {:induction false} SecondPubrec(s: State)
    requires s == Two(0, [First(WaitForPubcomp), Second(WaitForPubrec)], 2, PUBLISHES + [SentPubrel(1)])
    ensures Step(s, Pubrec(2, 0)).0 == Acknowledged()
  {
    assert s.out[1..][0] == s.out[1];
    assert FirstOut(s.out, 2) == 1 + FirstOut(s.out[1..], 2);
    assert s.handed + [SentPubrel(2)] == Acknowledged().handed;
  }

  /** Afterwards both messages are past their PUBREC, and the maximum is 1. */
  lemma {:induction false} MaximumLowered()
    ensures var r := RunEvents(Acknowledged(), [Reconnect(true), Connack(0, Some(1)), SocketLoss]);
            AllQos2(r) && r.outMax == 1 && |r.out| == 2 && r.out[1].uid == 1 && r.plan == [] && r.v5 && Past(r, 1)
  {
    hide RunEvents, Reset, Retry;
    var s := Acknowledged();
    ResetShape(s);
    var t := Step(s, Reconnect(true)).0;
    var t1 := t.(outMax := 1, outQuota := 1, active := true);
    RetryFrame(t1, 0);
    assert Step(t, Connack(0, Some(1))).0 == Retry(t1, 0);
    RunThree(s, Reconnect(true), Connack(0, Some(1)), SocketLoss);
  }

  /** In this reachable state message 1 is past its PUBREC, and after one more reconnect its PUBLISH
      is sent again. */
  lemma {:induction false} PublishedAgainExample()
    ensures var s := RunEvents(Fresh(true, 2, 2, []), TwoReleased());
            Past(s, 1) && PublishCount(1, RunEvents(s, Beyond(Some(2))).handed) > PublishCount(1, s.handed)
  {
    hide RunEvents, PublishCount, Past;
    var s0 := Fresh(true, 2, 2, []);
    var a, b := [Reconnect(true), Connack(0, None), Publish(2)], [Publish(2), Pubrec(1, 0), Pubrec(2, 0)];
    Published();
    PubrecsHandled();
    MaximumLowered();
    RunAppend(s0, a, b);
    RunAppend(s0, a + b, [Reconnect(true), Connack(0, Some(1)), SocketLoss]);
    BeyondMaximumPublishedAgain(RunEvents(s0, TwoReleased()), 1, Some(2));
  }
}
