/** Conservation of messages over all runs of the client, failing sends and reconnects included. */
module ClientConservation {
  import opened Basics
  import opened ClientSpec
  import opened ClientRuns
  import opened ClientPhases

  // ---------- Outgoing: accepted in order, minus removed ----------

  function Uids(out: seq<OutMsg>): (us: seq<nat>)
    ensures |us| == |out|
  {
    seq(|out|, i requires 0 <= i < |out| => out[i].uid)
  }

  /** The numbers below `n` that were not removed, in order. */
  function Kept(n: nat, removed: set<nat>): seq<nat> {
    if n == 0 then [] else Kept(n - 1, removed) + if n - 1 in removed then [] else [n - 1]
  }

  lemma {:induction false} KeptElements(n: nat, removed: set<nat>)
    ensures forall i :: 0 <= i < |Kept(n, removed)| ==> Kept(n, removed)[i] < n && Kept(n, removed)[i] !in removed
    ensures forall i, j :: 0 <= i < j < |Kept(n, removed)| ==> Kept(n, removed)[i] < Kept(n, removed)[j]
  {
    if n > 0 { KeptElements(n - 1, removed); }
  }

  /** Removing one more number deletes it from the list of those kept. */
  lemma {:induction false} KeptWithout(n: nat, removed: set<nat>, i: nat)
    requires i < |Kept(n, removed)|
    ensures var k := Kept(n, removed); Kept(n, removed + {k[i]}) == k[..i] + k[i + 1..]
  {
    var k := Kept(n, removed);
    var shorter := Kept(n - 1, removed);
    KeptElements(n, removed);
    KeptElements(n - 1, removed);
    if n - 1 !in removed && i == |shorter| {
      KeptSame(n - 1, removed, n - 1);
      assert k[..i] + k[i + 1..] == shorter;
    } else {
      KeptWithout(n - 1, removed, i);
      assert shorter[i] == k[i] && k[i] != n - 1;
      assert k[..i] + k[i + 1..] == (shorter[..i] + shorter[i + 1..]) + if n - 1 in removed then [] else [n - 1];
    }
  }

  lemma {:induction false} KeptSame(n: nat, removed: set<nat>, u: nat)
    requires u >= n
    ensures Kept(n, removed + {u}) == Kept(n, removed)
  {
    if n > 0 { KeptSame(n - 1, removed, u); }
  }

  // ---------- Incoming: received = delivered + pending + dropped ----------

  function Range(n: nat): multiset<nat> {
    if n == 0 then multiset{} else Range(n - 1) + multiset{n - 1}
  }

  function Pending(inc: seq<InMsg>): multiset<nat> {
    if inc == [] then multiset{} else Pending(inc[..|inc| - 1]) + multiset{inc[|inc| - 1].uid}
  }

  lemma {:induction false} RangeOnce(n: nat, u: nat)
    ensures Range(n)[u] == if u < n then 1 else 0
  {
    if n > 0 { RangeOnce(n - 1, u); }
  }

  lemma PendingSnoc(inc: seq<InMsg>, m: InMsg)
    ensures Pending(inc + [m]) == Pending(inc) + multiset{m.uid}
  {
    assert (inc + [m])[..|inc|] == inc;
  }

  lemma {:induction false} PendingWithout(inc: seq<InMsg>, i: nat)
    requires i < |inc|
    ensures Pending(inc) == Pending(inc[..i] + inc[i + 1..]) + multiset{inc[i].uid}
  {
    hide Pending;
    var last := |inc| - 1;
    var front := inc[..last];
    PendingSnoc(front, inc[last]);
    assert inc == front + [inc[last]];
    if i == last {
      assert inc[..i] + inc[i + 1..] == front;
    } else {
      PendingWithout(front, i);
      assert inc[..i] + inc[i + 1..] == front[..i] + front[i + 1..] + [inc[last]];
      PendingSnoc(front[..i] + front[i + 1..], inc[last]);
    }
  }

  // ---------- The invariant ----------

  ghost predicate OutConserved(s: State) {
    && Uids(s.out) == Kept(s.accepted, s.removed)
    && s.outLen == |s.out|
    && (forall u :: u in s.removed ==> u < s.accepted)
  }

  ghost predicate InConserved(s: State) {
    && AllQos2(s)
    && s.inLen == |s.inc|
    && Range(s.received) == multiset(s.delivered) + Pending(s.inc) + multiset(s.dropped)
  }

  ghost predicate Conserved(s: State) {
    OutConserved(s) && InConserved(s)
  }

  lemma FreshConserved(v5: bool, outMax: nat, inMax: nat, plan: seq<bool>)
    ensures Conserved(Fresh(v5, outMax, inMax, plan))
  {}

  /** What the incoming operations leave alone. */
  ghost predicate SameLedger(s: State, r: State) {
    && SameMessages(s.out, r.out) && r.outLen == s.outLen && r.accepted == s.accepted && r.removed == s.removed
  }

  lemma SameOut(s: State, r: State)
    requires OutConserved(s) && SameLedger(s, r)
    ensures OutConserved(r)
  {
    assert Uids(r.out) == Uids(s.out);
  }

  lemma SameIn(s: State, r: State)
    requires InConserved(s) && SameIncoming(s, r)
    ensures InConserved(r)
  {}

  lemma PublishConserves(s: State, qos: Qos12)
    requires OutConserved(s)
    ensures OutConserved(DoPublish(s, qos))
  {
    hide Release;
    var s1 := Queued(s, qos);
    assert Uids(s1.out) == Uids(s.out) + [s.accepted];
    assert s.accepted !in s.removed;
    ReleaseFrame(s1, 0);
    SameOut(s1, Release(s1, 0));
  }

  lemma RemoveConserves(s: State, mid: Word16, qos: nat)
    requires OutConserved(s)
    ensures OutConserved(RemoveOut(s, mid, qos).0)
  {
    var i := FirstOut(s.out, mid);
    if i < |s.out| && s.out[i].qos == qos {
      var us := Uids(s.out);
      KeptWithout(s.accepted, s.removed, i);
      KeptElements(s.accepted, s.removed);
      assert us[i] == s.out[i].uid;
      assert Uids(s.out[..i] + s.out[i + 1..]) == us[..i] + us[i + 1..];
    }
  }

  lemma AckConserves(s: State, mid: Word16, qos: Qos12)
    requires OutConserved(s)
    ensures OutConserved(DoAck(s, mid, qos).0)
  {
    hide Release, RemoveOut;
    var s1 := IncSendQuota(s);
    RemoveConserves(s1, mid, qos);
    var s2 := RemoveOut(s1, mid, qos).0;
    ReleaseFrame(s2, 0);
    SameOut(s2, Release(s2, 0));
  }

  lemma PubrecConserves(s: State, mid: Word16, reason: Byte)
    requires OutConserved(s)
    ensures OutConserved(DoPubrec(s, mid, reason).0)
  {
    hide Release, RemoveOut, Hand;
    var s1 := UpdateOut(s, mid, WaitForPubcomp, 2).0;
    SameOut(s, s1);
    HandFrame(s1, SentPubrel(mid));
    RemoveConserves(s, mid, 2);
    var s2 := IncSendQuota(RemoveOut(s, mid, 2).0);
    ReleaseFrame(s2, 0);
    SameOut(s2, Release(s2, 0));
  }

  lemma ConnackConserves(s: State, reason: Byte, receiveMaximum: Option<Word16>)
    requires OutConserved(s)
    ensures OutConserved(DoConnack(s, reason, receiveMaximum).0)
  {
    hide Retry;
    var max := MaximumAfter(s, receiveMaximum);
    RetryFrame(s.(outMax := max, outQuota := max, active := true), 0);
    SameOut(s, DoConnack(s, reason, receiveMaximum).0);
  }

  /** A QoS 2 message was received: the new entry is the last one. */
  ghost predicate OneReceived(s: State, r: State, mid: Word16) {
    && r.inc == s.inc + [InMsg(s.received, mid, 2)] && r.inLen == s.inLen + 1 && r.received == s.received + 1
    && r.delivered == s.delivered && r.dropped == s.dropped
  }

  /** The entry at position `i` was taken off: delivered, or dropped. */
  ghost predicate OneTaken(s: State, r: State, i: nat)
    requires i < |s.inc|
  {
    var u := s.inc[i].uid;
    && r.inc == s.inc[..i] + s.inc[i + 1..] && r.inLen == s.inLen - 1 && r.received == s.received
    && ((r.delivered == s.delivered + [u] && r.dropped == s.dropped)
        || (r.delivered == s.delivered && r.dropped == s.dropped + [u]))
  }

  lemma IncomingShape(s: State, qos: nat, mid: Word16)
    ensures var r := DoIncoming(s, qos, mid).0;
            SameLedger(s, r) && (SameIncoming(s, r) || OneReceived(s, r, mid))
  {
    hide Hand;
    HandFrame(IncReceiveQuota(DecReceiveQuota(s)), SentPuback(mid));
    HandFrame(DecReceiveQuota(s), SentPubrec(mid));
  }

  lemma {:induction false} PubrelShape(s: State, mid: Word16)
    ensures var r := DoPubrel(s, mid).0;
            SameLedger(s, r) &&
            (SameIncoming(s, r) || (FirstIn(s.inc, mid) < |s.inc| && OneTaken(s, r, FirstIn(s.inc, mid))))
  {
    hide Hand, FirstIn;
    HandFrame(IncReceiveQuota(s), SentPubcomp(mid));
  }

  lemma ReceivedConserves(s: State, r: State, mid: Word16)
    requires InConserved(s) && OneReceived(s, r, mid)
    ensures InConserved(r)
  {
    assert r.inc[..|r.inc| - 1] == s.inc;
    assert Pending(r.inc) == Pending(s.inc) + multiset{s.received};
    assert Range(r.received) == Range(s.received) + multiset{s.received};
  }

  lemma TakenConserves(s: State, r: State, i: nat)
    requires InConserved(s) && i < |s.inc| && OneTaken(s, r, i)
    ensures InConserved(r)
  {
    hide Pending, Range;
    PendingWithout(s.inc, i);
    forall j | 0 <= j < |r.inc| ensures r.inc[j].qos == 2 {
      assert r.inc[j] == if j < i then s.inc[j] else s.inc[j + 1];
    }
    var u := s.inc[i].uid;
    assert multiset(s.delivered + [u]) == multiset(s.delivered) + multiset{u};
    assert multiset(s.dropped + [u]) == multiset(s.dropped) + multiset{u};
  }

  lemma {:induction false} IncomingConserves(s: State, qos: nat, mid: Word16)
    requires Conserved(s)
    ensures Conserved(DoIncoming(s, qos, mid).0)
  {
    hide DoIncoming, InConserved, OutConserved;
    var r := DoIncoming(s, qos, mid).0;
    IncomingShape(s, qos, mid);
    SameOut(s, r);
    if SameIncoming(s, r) { SameIn(s, r); } else { ReceivedConserves(s, r, mid); }
  }

  lemma {:induction false} PubrelConserves(s: State, mid: Word16)
    requires Conserved(s)
    ensures Conserved(DoPubrel(s, mid).0)
  {
    hide DoPubrel, InConserved, OutConserved;
    var r := DoPubrel(s, mid).0;
    PubrelShape(s, mid);
    SameOut(s, r);
    if SameIncoming(s, r) { SameIn(s, r); } else { TakenConserves(s, r, FirstIn(s.inc, mid)); }
  }

  /** Every event keeps the books, whether its sends succeed or fail. */
  lemma StepConserves(s: State, e: Event)
    requires Conserved(s)
    ensures Conserved(Step(s, e).0)
  {
    hide DoPublish, DoAck, DoPubrec, DoIncoming, DoPubrel, DoConnack, Reset, OutConserved, InConserved;
    match e
    case Publish(qos) =>
      PublishConserves(s, qos);
      PublishOnlyOut(s, qos);
      SameIn(s, DoPublish(s, qos));
    case Ack(mid, qos) =>
      AckConserves(s, mid, qos);
      AckOnlyOut(s, mid, qos);
      SameIn(s, DoAck(s, mid, qos).0);
    case Pubrec(mid, reason) =>
      PubrecConserves(s, mid, reason);
      PubrecOnlyOut(s, mid, reason);
      SameIn(s, DoPubrec(s, mid, reason).0);
    case Incoming(qos, mid) => IncomingConserves(s, qos, mid);
    case Pubrel(mid) => PubrelConserves(s, mid);
    case PublishQos0 =>
      MidConserves(s, NextMid(s.lastMid));
      HandConserves(s.(lastMid := NextMid(s.lastMid)), SentQos0(NextMid(s.lastMid)));
    case Disconnect =>
      SocketConserves(s, s.sockOpen, false);
      HandConserves(s.(active := false), SentDisconnect);
    case SocketLoss => SocketConserves(s, false, s.active);
    case Reconnect(ok) =>
      ResetConserves(s);
      SocketConserves(Reset(s), ok, false);
    case Connack(reason, max) =>
      ConnackConserves(s, reason, max);
      ConnackOnlyOut(s, reason, max);
      SameIn(s, DoConnack(s, reason, max).0);
  }

  lemma HandConserves(s: State, p: Sent)
    requires OutConserved(s) && InConserved(s)
    ensures Conserved(Hand(s, p).0)
  {
    hide Hand;
    HandFrame(s, p);
  }

  lemma MidConserves(s: State, mid: Word16)
    requires Conserved(s)
    ensures Conserved(s.(lastMid := mid))
  {}

  lemma SocketConserves(s: State, sockOpen: bool, active: bool)
    requires Conserved(s)
    ensures Conserved(s.(sockOpen := sockOpen, active := active)) && Conserved(s.(sockOpen := sockOpen))
  {}

  lemma ResetConserves(s: State)
    requires Conserved(s)
    ensures Conserved(Reset(s))
  {
    hide ResetState, Reset, Kept, Range, Pending;
    ResetShape(s);
    assert Uids(Reset(s).out) == Uids(s.out);
  }

  /** Over all runs: the outgoing list is what was accepted, in order, minus what was removed; and
      what was received with QoS 2 is delivered, pending or dropped, each message in one place. */
  lemma {:induction false} RunConserves(s: State, es: seq<Event>)
    requires Conserved(s)
    ensures Conserved(RunEvents(s, es))
    decreases |es|
  {
    hide Step, Conserved;
    if es != [] {
      StepConserves(s, es[0]);
      RunConserves(Step(s, es[0]).0, es[1..]);
    }
  }

  /** A conserving state has delivered every message at most once. */
  lemma DeliveredAtMostOnce(s: State, u: nat)
    requires Conserved(s)
    ensures multiset(s.delivered)[u] <= 1
    ensures multiset(s.delivered)[u] + Pending(s.inc)[u] + multiset(s.dropped)[u] == if u < s.received then 1 else 0
  {
    RangeOnce(s.received, u);
  }

  /** Delivery happens at a PUBREL and at no other event. */
  lemma DeliveryOnlyByPubrel(s: State, e: Event)
    requires AllQos2(s)
    ensures Step(s, e).0.delivered != s.delivered ==> e.Pubrel?
  {
    hide DoPublish, DoAck, DoPubrec, DoPubrel, DoConnack, Reset, Hand;
    match e
    case Publish(qos) => PublishOnlyOut(s, qos);
    case Ack(mid, qos) => AckOnlyOut(s, mid, qos);
    case Pubrec(mid, reason) => PubrecOnlyOut(s, mid, reason);
    case Incoming(qos, mid) =>
      HandFrame(IncReceiveQuota(DecReceiveQuota(s)), SentPuback(mid));
      HandFrame(DecReceiveQuota(s), SentPubrec(mid));
    case Pubrel(_) =>
    case PublishQos0 => HandFrame(s.(lastMid := NextMid(s.lastMid)), SentQos0(NextMid(s.lastMid)));
    case Disconnect => HandFrame(s.(active := false), SentDisconnect);
    case SocketLoss =>
    case Reconnect(ok) => ResetShape(s);
    case Connack(reason, max) => ConnackOnlyOut(s, reason, max);
  }
}
