/** The client's send window over whole runs. */
module ClientRuns {
  import opened Basics
  import opened ClientSpec

  // ---------- What the walks over the outgoing list leave alone ----------

  /** Lists that differ at most in state and dup flag. */
  ghost predicate SameMessages(a: seq<OutMsg>, b: seq<OutMsg>) {
    |a| == |b| && forall i :: 0 <= i < |a| ==> a[i].uid == b[i].uid && a[i].mid == b[i].mid && a[i].qos == b[i].qos
  }

  /** Only the outgoing list, its quota and the sender's record may have changed. */
  ghost predicate OnlySends(s: State, r: State) {
    && r == s.(out := r.out, outQuota := r.outQuota, plan := r.plan, handed := r.handed)
    && SameMessages(s.out, r.out)
    && (s.plan == [] ==> r.plan == [])
  }

  lemma HandFrame(s: State, p: Sent)
    ensures var r := Hand(s, p).0;
            r == s.(plan := r.plan, handed := r.handed) && (s.plan == [] ==> r.plan == []) &&
            r.handed == s.handed + (if s.sockOpen then [p] else [])
    ensures s.plan == [] && s.sockOpen ==> Hand(s, p).1 == Success
  {
    assert s.handed + [] == s.handed;
  }

  lemma {:induction false} ReleaseFrame(s: State, i: nat)
    requires i <= |s.out|
    ensures OnlySends(s, Release(s, i))
    ensures forall j :: 0 <= j < |s.out| ==>
              Release(s, i).out[j] == s.out[j] ||
              (s.out[j].state.Invalid? && Release(s, i).out[j] == Released(s.out[j]))
    decreases |s.out| - i
  {
    if i < |s.out| && s.outQuota > 0 {
      if s.out[i].state.Invalid? {
        var m := s.out[i];
        var s0 := s.(out := s.out[i := Released(m)]);
        var p := SentPublish(m.uid, m.mid, m.qos, m.dup);
        HandFrame(s0, p);
        var (s1, rc) := Hand(s0, p);
        if rc == Success {
          ReleaseFrame(s1.(outQuota := s1.outQuota - 1), i + 1);
        }
      } else {
        ReleaseFrame(s, i + 1);
      }
    }
  }

  lemma RetryOneFrame(s: State, i: nat)
    requires i < |s.out|
    ensures OnlySends(s, RetryOne(s, i)) && RetryOne(s, i).outQuota == s.outQuota
    ensures forall j :: 0 <= j < |s.out| ==> RetryOne(s, i).out[j].state == s.out[j].state
  {
    hide Hand;
    var m := s.out[i];
    var s0 := s.(out := s.out[i := m.(dup := true)]);
    HandFrame(s0, SentPublish(m.uid, m.mid, m.qos, true));
    HandFrame(s0, SentPubrel(m.mid));
  }

  lemma {:induction false} RetryFrame(s: State, i: nat)
    requires i <= |s.out|
    ensures OnlySends(s, Retry(s, i)) && Retry(s, i).outQuota == s.outQuota
    ensures forall j :: 0 <= j < |s.out| ==> Retry(s, i).out[j].state == s.out[j].state
    decreases |s.out| - i
  {
    hide RetryOne;
    if i < |s.out| {
      RetryOneFrame(s, i);
      RetryFrame(RetryOne(s, i), i + 1);
    }
  }

  /** After a reset, the first `quota` messages are in a state that leads to a resend, and the
      others are unsent. */
  lemma {:induction false} ResetOutShape(s: State, i: nat)
    requires i <= |s.out|
    ensures var r := ResetOut(s, i);
            r == s.(out := r.out, outQuota := r.outQuota, outLen := s.outLen + (|s.out| - i)) &&
            SameMessages(s.out, r.out) &&
            (forall j :: 0 <= j < i ==> r.out[j] == s.out[j]) &&
            (forall j :: i <= j < |s.out| ==>
               r.out[j] == s.out[j].(state := if j - i < s.outQuota then ResetState(s.out[j]) else Invalid))
    decreases |s.out| - i
  {
    hide ResetState;
    if i < |s.out| {
      ResetOutShape(ResetOutOne(s, i), i + 1);
    }
  }

  /** With nothing but QoS 2 messages the incoming half of a reset deletes nothing. */
  lemma {:induction false} ResetInShape(s: State, i: nat)
    requires i <= |s.inc| && forall j :: 0 <= j < |s.inc| ==> s.inc[j].qos == 2
    ensures ResetIn(s, i) == s.(inQuota := ResetIn(s, i).inQuota, inLen := s.inLen + (|s.inc| - i))
    ensures ResetIn(s, i).inQuota <= s.inQuota
    decreases |s.inc| - i
  {
    if i < |s.inc| {
      ResetInShape(ResetInOne(s, i), i + 1);
    }
  }

  // ---------- The send window ----------

  /** How many messages at the front of the list are in flight. */
  function InFlight(out: seq<OutMsg>): (n: nat)
    ensures n <= |out|
  {
    if out == [] || out[0].state.Invalid? then 0 else 1 + InFlight(out[1..])
  }

  ghost predicate FlightIs(out: seq<OutMsg>, n: nat) {
    n <= |out| && forall i :: 0 <= i < |out| ==> (out[i].state.Invalid? <==> i >= n)
  }

  lemma {:induction false} FlightCounted(out: seq<OutMsg>, n: nat)
    requires FlightIs(out, n)
    ensures InFlight(out) == n
  {
    if out != [] && n > 0 {
      assert forall i :: 0 <= i < |out| - 1 ==> out[1..][i] == out[i + 1];
      FlightCounted(out[1..], n - 1);
    }
  }

  /** The window: the messages in flight are a prefix of the list, quota and flight add up to the
      maximum, and a message waits only while the quota is used up. */
  ghost predicate Window(s: State) {
    && FlightIs(s.out, InFlight(s.out))
    && s.outQuota + InFlight(s.out) == s.outMax
    && (InFlight(s.out) < |s.out| ==> s.outQuota == 0)
  }

  /** The next `k` sends succeed. */
  predicate SendsOk(s: State, k: nat) {
    k == 0 || (s.sockOpen && forall j :: 0 <= j < k && j < |s.plan| ==> s.plan[j])
  }

  /** How many messages a release sends if nothing fails, with `n` in flight. */
  function Releasable(s: State, n: nat): nat
    requires n <= |s.out|
  {
    if s.outQuota <= |s.out| - n then s.outQuota else |s.out| - n
  }

  /** The release of the first unsent message, and what is left to do. */
  lemma ReleaseSends(s: State, n: nat)
    requires FlightIs(s.out, n) && n < |s.out| && s.outQuota > 0
    ensures var m := s.out[n];
            var (s1, rc) := Hand(s.(out := s.out[n := Released(m)]), SentPublish(m.uid, m.mid, m.qos, m.dup));
            FlightIs(s1.out, n + 1) && |s1.out| == |s.out| && s1.outQuota == s.outQuota && s1.outMax == s.outMax &&
            (SendsOk(s, Releasable(s, n)) <==> rc == Success && SendsOk(s1, Releasable(s, n) - 1)) &&
            Release(s, n) == if rc != Success then s1 else Release(s1.(outQuota := s1.outQuota - 1), n + 1)
  {
    hide SendsOk, Hand;
    var m := s.out[n];
    var s0 := s.(out := s.out[n := Released(m)]);
    FirstSend(s0, SentPublish(m.uid, m.mid, m.qos, m.dup), Releasable(s, n));
    SameSends(s, s0, Releasable(s, n));
  }

  /** What a release leaves: the messages in flight are a prefix, and their number and the quota add up
      to what they did before; but to one more if a send fails, as that message is marked and takes
      no quota. If none fails, a message waits only without quota. */
  ghost predicate Summed(s: State, r: State, n: nat)
    requires n <= |s.out|
  {
    var m := InFlight(r.out);
    var ok := SendsOk(s, Releasable(s, n));
    && FlightIs(r.out, m) && r.outMax == s.outMax
    && r.outQuota + m == s.outQuota + n + (if ok then 0 else 1)
    && (ok && m < |r.out| ==> r.outQuota == 0)
  }

  lemma {:induction false} ReleaseSum(s: State, i: nat, n: nat)
    requires i <= n && FlightIs(s.out, n)
    ensures Summed(s, Release(s, i), n)
    decreases |s.out| - i
  {
    hide Summed, Hand, SendsOk;
    if i == |s.out| || s.outQuota == 0 {
      NothingReleased(s, n);
    } else if i < n {
      ReleaseSum(s, i + 1, n);
    } else {
      hide Release, FlightIs;
      ReleaseSends(s, n);
      var m := s.out[n];
      var (s1, rc) := Hand(s.(out := s.out[n := Released(m)]), SentPublish(m.uid, m.mid, m.qos, m.dup));
      if rc == Success {
        var s2 := s1.(outQuota := s1.outQuota - 1);
        SameSends(s1, s2, Releasable(s2, n + 1));
        ReleaseSum(s2, i + 1, n + 1);
        SummedBack(s, s2, Release(s2, i + 1), n);
      } else {
        SummedFailed(s, s1, n);
      }
    }
  }

  lemma NothingReleased(s: State, n: nat)
    requires FlightIs(s.out, n) && (n == |s.out| || s.outQuota == 0)
    ensures Summed(s, s, n)
  {
    hide SendsOk;
    FlightCounted(s.out, n);
    NoSends(s);
  }

  lemma SummedFailed(s: State, r: State, n: nat)
    requires n < |s.out| && FlightIs(r.out, n + 1) && r.outQuota == s.outQuota && r.outMax == s.outMax
    requires !SendsOk(s, Releasable(s, n))
    ensures Summed(s, r, n)
  {
    FlightCounted(r.out, n + 1);
  }

  lemma SummedBack(s: State, s2: State, r: State, n: nat)
    requires n < |s.out| == |s2.out| && s2.outMax == s.outMax && s2.outQuota + 1 == s.outQuota
    requires SendsOk(s, Releasable(s, n)) == SendsOk(s2, Releasable(s2, n + 1))
    requires Summed(s2, r, n + 1)
    ensures Summed(s, r, n)
  {
    hide SendsOk, InFlight, FlightIs;
  }

  lemma NoSends(s: State)
    ensures SendsOk(s, 0)
  {}

  lemma SameSends(s: State, r: State, k: nat)
    requires r.sockOpen == s.sockOpen && r.plan == s.plan
    ensures SendsOk(r, k) == SendsOk(s, k)
  {}

  /** The first of `k` sends. */
  lemma FirstSend(s: State, p: Sent, k: nat)
    requires k > 0
    ensures var (r, rc) := Hand(s, p);
            r == s.(plan := r.plan, handed := r.handed) &&
            (rc == Success <==> SendsOk(s, 1)) &&
            (SendsOk(s, k) <==> rc == Success && SendsOk(r, k - 1))
  {
    var (r, rc) := Hand(s, p);
    if rc == Success && s.plan != [] {
      assert forall j :: 0 <= j < |r.plan| ==> r.plan[j] == s.plan[j + 1];
      if SendsOk(r, k - 1) && k > 1 {
        forall j | 0 <= j < k && j < |s.plan| ensures s.plan[j] {
          if j > 0 { assert r.plan[j - 1]; }
        }
      }
    }
  }

  /** From the window, a message more or a place more, releasing keeps the window exactly if the send
      for it (if there is one) succeeds. */
  lemma ReleaseKeepsWindowIff(s: State, n: nat)
    requires FlightIs(s.out, n) && s.outQuota + n == s.outMax
    ensures Window(Release(s, 0)) <==> SendsOk(s, Releasable(s, n))
  {
    hide SendsOk;
    ReleaseSum(s, 0, n);
  }

  /** With one unit of quota too much, releasing cannot restore the window. */
  lemma StrayRelease(s: State, n: nat)
    requires FlightIs(s.out, n) && s.outQuota + n == s.outMax + 1
    ensures !Window(Release(s, 0))
  {
    hide SendsOk;
    ReleaseSum(s, 0, n);
  }

  /** The maximum that a CONNACK leaves. */
  function MaximumAfter(s: State, receiveMaximum: Option<Word16>): nat {
    if s.v5 && receiveMaximum.Some? then receiveMaximum.value else s.outMax
  }

  /** A CONNACK, successful or not, resets the quota without regard to the list. It opens the window
      exactly if the list is empty, or holds only unsent messages while the maximum is zero. */
  lemma ConnackOpensWindowIff(s: State, reason: Byte, receiveMaximum: Option<Word16>)
    ensures Window(DoConnack(s, reason, receiveMaximum).0) <==>
            FlightIs(s.out, 0) && (s.out != [] ==> MaximumAfter(s, receiveMaximum) == 0)
  {
    var max := MaximumAfter(s, receiveMaximum);
    var s1 := s.(outMax := max, outQuota := max, active := true);
    var r := DoConnack(s, reason, receiveMaximum).0;
    RetryFrame(s1, 0);
    if FlightIs(s.out, 0) {
      FlightCounted(r.out, 0);
    }
    if Window(r) {
      assert InFlight(r.out) == 0;
      assert forall i :: 0 <= i < |s.out| ==> s.out[i].state == r.out[i].state;
    }
  }

  /** The first message with the identifier is in flight and has the acknowledged QoS. */
  predicate AcksInFlight(s: State, mid: Word16, qos: nat) {
    var i := FirstOut(s.out, mid);
    mid != 0 && i < |s.out| && s.out[i].qos == qos && !s.out[i].state.Invalid?
  }

  lemma FlightAfterRemoval(out: seq<OutMsg>, n: nat, i: nat)
    requires FlightIs(out, n) && i < |out|
    ensures FlightIs(out[..i] + out[i + 1..], if i < n then n - 1 else n)
  {
    var r := out[..i] + out[i + 1..];
    assert forall j :: 0 <= j < |r| ==> r[j] == if j < i then out[j] else out[j + 1];
  }

  /** What an acknowledgement needs to keep the window: that it acknowledges a message in flight and
      the send it makes room for (if a message waits) succeeds, or that the quota is at its maximum,
      so that it cannot be raised. */
  predicate AckKeeps(s: State, mid: Word16, qos: nat) {
    if AcksInFlight(s, mid, qos) then InFlight(s.out) < |s.out| ==> SendsOk(s, 1)
    else s.outQuota == s.outMax
  }

  /** One message taken off the list and one unit given back, if it was below the maximum. */
  lemma RemovalKeepsWindowIff(s: State, s2: State, i: nat)
    requires Window(s) && i < |s.out|
    requires s2.out == s.out[..i] + s.out[i + 1..] && s2.outMax == s.outMax && s2.sockOpen == s.sockOpen && s2.plan == s.plan
    requires s2.outQuota == if s.outQuota < s.outMax then s.outQuota + 1 else s.outQuota
    ensures Window(Release(s2, 0)) <==>
      if !s.out[i].state.Invalid? then InFlight(s.out) < |s.out| ==> SendsOk(s, 1) else s.outQuota == s.outMax
  {
    var n := InFlight(s.out);
    FlightAfterRemoval(s.out, n, i);
    hide SendsOk;
    if i < n {
      ReleaseKeepsWindowIff(s2, n - 1);
      SameSends(s, s2, Releasable(s2, n - 1));
      NoSends(s);
    } else if s.outQuota < s.outMax {
      StrayRelease(s2, n);
    } else {
      ReleaseKeepsWindowIff(s2, n);
      NoSends(s2);
    }
  }

  /** Nothing taken off the list, and one unit given back, if it was below the maximum. */
  lemma NothingRemovedKeepsWindowIff(s: State, s2: State)
    requires Window(s) && s2.out == s.out && s2.outMax == s.outMax
    requires s2.outQuota == if s.outQuota < s.outMax then s.outQuota + 1 else s.outQuota
    ensures Window(s2) <==> s.outQuota == s.outMax
    ensures Window(Release(s2, 0)) <==> s.outQuota == s.outMax
  {
    var n := InFlight(s.out);
    hide SendsOk;
    if s.outQuota < s.outMax {
      StrayRelease(s2, n);
    } else {
      ReleaseKeepsWindowIff(s2, n);
      NoSends(s2);
    }
  }

  /** A PUBACK or PUBCOMP keeps the window exactly under this condition. */
  lemma AckKeepsWindowIff(s: State, mid: Word16, qos: Qos12)
    requires Window(s) && s.active
    ensures Window(DoAck(s, mid, qos).0) <==> AckKeeps(s, mid, qos)
  {
    hide SendsOk, Window, Release;
    var i := FirstOut(s.out, mid);
    var s1 := IncSendQuota(s);
    if mid != 0 && i < |s.out| && s.out[i].qos == qos {
      RemovalKeepsWindowIff(s, RemoveOut(s1, mid, qos).0, i);
    } else {
      NothingRemovedKeepsWindowIff(s, s1);
    }
  }

  /** What an acknowledgement does to the window if it does not match a message in flight: the
      quota is raised all the same. */
  lemma StrayAckBreaksWindow(s: State, mid: Word16, qos: Qos12)
    requires Window(s) && s.active && !AcksInFlight(s, mid, qos) && s.outQuota < s.outMax
    ensures !Window(DoAck(s, mid, qos).0)
  {
    AckKeepsWindowIff(s, mid, qos);
  }

  /** A PUBREC that reports success keeps the window exactly if the first message with its
      identifier is not a QoS 2 message that was never sent. */
  lemma PubrecKeepsWindowIff(s: State, mid: Word16, reason: Byte)
    requires Window(s) && s.active && mid != 0 && (reason < 0x80 || !s.v5)
    ensures Window(DoPubrec(s, mid, reason).0) <==>
            var i := FirstOut(s.out, mid); !(i < |s.out| && s.out[i].qos == 2 && s.out[i].state.Invalid?)
  {
    var n := InFlight(s.out);
    var i := FirstOut(s.out, mid);
    var r := DoPubrec(s, mid, reason).0;
    HandFrame(UpdateOut(s, mid, WaitForPubcomp, 2).0, SentPubrel(mid));
    if i < |s.out| && s.out[i].qos == 2 {
      if s.out[i].state.Invalid? {
        if i == n {
          FlightIsAdvanced(s.out, r.out, n);
        } else {
          assert r.out[n].state.Invalid? && !r.out[i].state.Invalid? && n < i;
        }
      } else {
        assert FlightIs(r.out, n);
        FlightCounted(r.out, n);
      }
    }
  }

  lemma FlightIsAdvanced(out: seq<OutMsg>, r: seq<OutMsg>, n: nat)
    requires FlightIs(out, n) && n < |out| == |r| && !r[n].state.Invalid?
    requires forall j :: 0 <= j < |out| && j != n ==> r[j] == out[j]
    ensures InFlight(r) == n + 1
  {
    FlightCounted(r, n + 1);
  }

  /** A PUBREC that reports failure takes the message off the list and frees its place: the same
      condition as for an acknowledgement. */
  lemma FailedPubrecKeepsWindowIff(s: State, mid: Word16, reason: Byte)
    requires Window(s) && s.active && mid != 0 && reason >= 0x80 && s.v5
    ensures Window(DoPubrec(s, mid, reason).0) <==> AckKeeps(s, mid, 2)
  {
    hide SendsOk, Window, Release;
    var i := FirstOut(s.out, mid);
    var s1 := RemoveOut(s, mid, 2).0;
    if i < |s.out| && s.out[i].qos == 2 {
      RemovalKeepsWindowIff(s, IncSendQuota(s1), i);
    } else {
      NothingRemovedKeepsWindowIff(s, IncSendQuota(s1));
    }
  }

  /** Publishing keeps the window exactly if the message need not be sent yet or can be sent. */
  lemma PublishKeepsWindowIff(s: State, qos: Qos12)
    requires Window(s)
    ensures Window(DoPublish(s, qos)) <==> (s.outQuota > 0 ==> SendsOk(s, 1))
  {
    hide SendsOk;
    var s1 := Queued(s, qos);
    var n := InFlight(s.out);
    ReleaseKeepsWindowIff(s1, n);
    SameSends(s, s1, Releasable(s1, n));
    NoSends(s);
  }

  /** A reconnect keeps the window: the messages in flight are the first ones again. */
  lemma ResetKeepsWindow(s: State)
    requires Window(s)
    ensures Window(Reset(s))
  {
    hide ResetOut, ResetIn;
    var s0 := s.(inQuota := s.inMax, inLen := 0);
    ResetInLeavesOutgoing(s0, 0);
    var s1 := ResetIn(s0, 0);
    ResetOutShape(s1.(outQuota := s1.outMax, outLen := 0), 0);
    ResetOutQuota(s1.(outQuota := s1.outMax, outLen := 0), 0);
    FlightCounted(Reset(s).out, InFlight(s.out));
  }

  lemma {:induction false} ResetInLeavesOutgoing(s: State, i: nat)
    requires i <= |s.inc|
    ensures var r := ResetIn(s, i); r == s.(inc := r.inc, inQuota := r.inQuota, inLen := r.inLen)
    decreases |s.inc| - i
  {
    if i < |s.inc| {
      ResetInLeavesOutgoing(ResetInOne(s, i), if s.inc[i].qos == 2 then i + 1 else i);
    }
  }

  /** Every message that is looked at takes a unit while there is one. */
  lemma {:induction false} ResetOutQuota(s: State, i: nat)
    requires i <= |s.out|
    ensures ResetOut(s, i).outQuota == if s.outQuota >= |s.out| - i then s.outQuota - (|s.out| - i) else 0
    decreases |s.out| - i
  {
    hide ResetState;
    if i < |s.out| {
      ResetOutQuota(ResetOutOne(s, i), i + 1);
    }
  }

  /** What an event needs to keep the window. */
  ghost predicate Keeps(s: State, e: Event) {
    match e
    case Publish(_) => s.outQuota > 0 ==> SendsOk(s, 1)
    case Ack(mid, qos) => s.sockOpen && s.active ==> AckKeeps(s, mid, qos)
    case Pubrec(mid, reason) =>
      s.sockOpen && s.active && mid != 0 ==>
        if reason < 0x80 || !s.v5 then
          var i := FirstOut(s.out, mid); !(i < |s.out| && s.out[i].qos == 2 && s.out[i].state.Invalid?)
        else AckKeeps(s, mid, 2)
    case Connack(_, max) =>
      s.sockOpen ==> FlightIs(s.out, 0) && (s.out != [] ==> MaximumAfter(s, max) == 0)
    case _ => true
  }

  ghost predicate KeepsRun(s: State, es: seq<Event>)
    decreases |es|
  {
    es == [] || (Keeps(s, es[0]) && KeepsRun(Step(s, es[0]).0, es[1..]))
  }

  /** Every event keeps the window exactly if it meets its condition, whatever the sends do. */
  lemma StepKeepsWindowIff(s: State, e: Event)
    requires Window(s)
    ensures Window(Step(s, e).0) <==> Keeps(s, e)
  {
    hide DoPublish, DoAck, DoPubrec, DoIncoming, DoPubrel, DoConnack, Window, AckKeeps, SendsOk, Hand, Reset, FlightIs;
    match e
    case Publish(qos) => PublishKeepsWindowIff(s, qos);
    case PublishQos0 =>
      HandFrame(s.(lastMid := NextMid(s.lastMid)), SentQos0(NextMid(s.lastMid)));
      SameWindow(s, DoPublishQos0(s).0);
    case Disconnect =>
      HandFrame(s.(active := false), SentDisconnect);
      SameWindow(s, DoDisconnect(s).0);
    case Ack(mid, qos) =>
      if s.active { AckKeepsWindowIff(s, mid, qos); } else { InactiveIgnores(s, mid, qos, 0); }
    case Pubrec(mid, reason) => PubrecStepIff(s, mid, reason);
    case Incoming(qos, mid) =>
      IncomingLeavesOutgoing(s, qos, mid);
      SameWindow(s, DoIncoming(s, qos, mid).0);
    case Pubrel(mid) =>
      PubrelLeavesOutgoing(s, mid);
      SameWindow(s, DoPubrel(s, mid).0);
    case SocketLoss => SameWindow(s, s.(sockOpen := false));
    case Reconnect(ok) =>
      ResetKeepsWindow(s);
      SameWindow(Reset(s), Reset(s).(sockOpen := ok, active := false));
    case Connack(reason, max) => ConnackOpensWindowIff(s, reason, max);
  }

  lemma InactiveIgnores(s: State, mid: Word16, qos: Qos12, reason: Byte)
    ensures !s.active ==> DoAck(s, mid, qos).0 == s
    ensures !s.active || mid == 0 ==> DoPubrec(s, mid, reason).0 == s
  {}

  lemma PubrecStepIff(s: State, mid: Word16, reason: Byte)
    requires Window(s)
    ensures Window(Step(s, Pubrec(mid, reason)).0) <==> Keeps(s, Pubrec(mid, reason))
  {
    hide DoPubrec, Window, AckKeeps;
    if !s.active || mid == 0 {
      InactiveIgnores(s, mid, 1, reason);
    } else if reason < 0x80 || !s.v5 {
      PubrecKeepsWindowIff(s, mid, reason);
    } else {
      FailedPubrecKeepsWindowIff(s, mid, reason);
    }
  }

  lemma SameWindow(s: State, r: State)
    requires Window(s) && r.out == s.out && r.outQuota == s.outQuota && r.outMax == s.outMax
    ensures Window(r)
  {}

  /** Everything the window is about is untouched. */
  ghost predicate SameOutgoing(s: State, r: State) {
    && r.out == s.out && r.outQuota == s.outQuota && r.outMax == s.outMax
    && r.sockOpen == s.sockOpen && r.active == s.active && (s.plan == [] ==> r.plan == [])
  }

  /** Incoming messages use the other list and the other quota. */
  lemma IncomingLeavesOutgoing(s: State, qos: nat, mid: Word16)
    ensures SameOutgoing(s, DoIncoming(s, qos, mid).0)
  {
    hide Hand;
    HandFrame(IncReceiveQuota(DecReceiveQuota(s)), SentPuback(mid));
    HandFrame(DecReceiveQuota(s), SentPubrec(mid));
  }

  lemma PubrelLeavesOutgoing(s: State, mid: Word16)
    ensures SameOutgoing(s, DoPubrel(s, mid).0)
  {
    hide Hand, FirstIn;
    HandFrame(IncReceiveQuota(s), SentPubcomp(mid));
  }

  /** The window holds now and after every event of a run. */
  ghost predicate WindowAlong(s: State, es: seq<Event>)
    decreases |es|
  {
    Window(s) && (es == [] || WindowAlong(Step(s, es[0]).0, es[1..]))
  }

  /** The window over whole runs: from the CONNACK on, quota and messages in flight add up to the
      maximum, the messages in flight are a prefix, and a message waits only without quota - exactly
      as long as every event meets its condition. */
  lemma {:induction false} WindowOverRuns(s: State, es: seq<Event>)
    requires Window(s)
    ensures WindowAlong(s, es) <==> KeepsRun(s, es)
    ensures KeepsRun(s, es) ==> Window(RunEvents(s, es))
    decreases |es|
  {
    hide Step, Window, Keeps;
    if es != [] {
      StepKeepsWindowIff(s, es[0]);
      if Keeps(s, es[0]) { WindowOverRuns(Step(s, es[0]).0, es[1..]); } else { WindowAlongHolds(Step(s, es[0]).0, es[1..]); }
    }
  }

  lemma WindowAlongHolds(s: State, es: seq<Event>)
    ensures WindowAlong(s, es) ==> Window(s)
  {}

  /** A peer that acknowledges only messages in flight, with sends that succeed: the special case that
      needs no condition on the quota. */
  lemma AcksInFlightKeep(s: State, mid: Word16, qos: Qos12)
    requires Window(s) && s.active && s.sockOpen && s.plan == [] && AcksInFlight(s, mid, qos)
    ensures Window(DoAck(s, mid, qos).0) && DoAck(s, mid, qos).1 == Success
  {
    AckKeepsWindowIff(s, mid, qos);
  }

  // ---------- How the window is lost ----------

  /** The client of the examples: one QoS 1 message in flight, of two allowed. */
  function OneInFlight(): seq<Event> {
    [Reconnect(true), Connack(0, None), Publish(1)]
  }

  function AfterOne(): State {
    State(false, true, true, [OutMsg(0, 1, 1, WaitForPuback, false)], 1, 2, 1, [], 2, 2, 0, 1, [],
          [SentPublish(0, 1, 1, false)], 1, {}, 0, [], [])
  }

  lemma OneInFlightIs()
    ensures RunEvents(Fresh(false, 2, 2, []), OneInFlight()) == AfterOne() && Window(AfterOne())
  {
    var s0 := Fresh(false, 2, 2, []);
    var s1 := s0.(sockOpen := true);
    var s2 := s1.(active := true);
    assert Step(s0, Reconnect(true)).0 == s1;
    assert Step(s1, Connack(0, None)).0 == s2;
    PublishOne(s2);
    RunThree(s0, Reconnect(true), Connack(0, None), Publish(1));
    FlightCounted(AfterOne().out, 1);
  }

  lemma PublishOne(s: State)
    requires s == Fresh(false, 2, 2, []).(sockOpen := true, active := true)
    ensures Step(s, Publish(1)).0 == AfterOne()
  {
    var q := Queued(s, 1);
    assert q.out == [OutMsg(0, 1, 1, Invalid, false)];
    var r := q.(out := q.out[0 := Released(q.out[0])]);
    assert Release(q, 0) == Release(Hand(r, SentPublish(0, 1, 1, false)).0.(outQuota := 1), 1);
  }

  lemma RunThree(s: State, a: Event, b: Event, c: Event)
    ensures RunEvents(s, [a, b, c]) == Step(Step(Step(s, a).0, b).0, c).0
  {
    hide Step;
    var t, u := Step(s, a).0, Step(Step(s, a).0, b).0;
    assert [a, b, c][1..] == [b, c] && [b, c][1..] == [c] && [c][1..] == [];
    assert RunEvents(u, [c]) == RunEvents(Step(u, c).0, []);
  }

  /** In that reachable state an acknowledgement of an unknown identifier loses the window. */
  lemma {:induction false} StrayAckExample()
    ensures var s := RunEvents(Fresh(false, 2, 2, []), OneInFlight());
            Window(s) && !Window(Step(s, Ack(9, 1)).0)
  {
    hide RunEvents, Window, DoAck;
    OneInFlightIs();
    StrayAckBreaksWindow(AfterOne(), 9, 1);
  }

  /** And so does a new connection, with its CONNACK, while the message is pending. */
  lemma {:induction false} PendingConnackExample()
    ensures var s := RunEvents(Fresh(false, 2, 2, []), OneInFlight());
            Window(s) && !Window(Step(Step(s, Reconnect(true)).0, Connack(0, None)).0)
  {
    hide RunEvents, Window, Reset, DoConnack;
    OneInFlightIs();
    var t := Step(AfterOne(), Reconnect(true)).0;
    ResetAfterOne();
    assert !t.out[0].state.Invalid?;
    ConnackOpensWindowIff(t, 0, None);
  }

  lemma ResetAfterOne()
    ensures Reset(AfterOne()).out == [OutMsg(0, 1, 1, PublishQos1, false)]
  {
    hide ResetOut;
    var q := AfterOne().(inLen := 0, outQuota := 2, outLen := 0);
    assert ResetIncoming(AfterOne()) == AfterOne().(inLen := 0);
    ResetOutShape(q, 0);
  }
}
