/** Which packet answers which: what the client hands to the sender for everything that arrives. */
module ClientAnswers {
  import opened Basics
  import opened ClientSpec
  import opened ClientRuns
  import opened ClientPhases

  // ---------- Answers ----------

  /** The PUBACKs, PUBRECs and PUBCOMPs among the packets handed to the sender. */
  function Answers(handed: seq<Sent>): seq<Sent> {
    if handed == [] then []
    else
      var p := handed[|handed| - 1];
      Answers(handed[..|handed| - 1]) + if p.SentPuback? || p.SentPubrec? || p.SentPubcomp? then [p] else []
  }

  /** What section 4.3 has the client answer: a PUBLISH of QoS 1 with PUBACK and one of QoS 2 with PUBREC,
      unless it is refused for its identifier or the receive maximum, and a PUBREL with PUBCOMP. */
  function Due(s: State, e: Event): seq<Sent> {
    if !s.sockOpen || !s.active then []
    else match e
      case Incoming(qos, mid) =>
        if mid == 0 || (s.v5 && s.inQuota == 0) then []
        else if qos == 1 then [SentPuback(mid)]
        else if qos == 2 then [SentPubrec(mid)]
        else []
      case Pubrel(mid) => if mid == 0 then [] else [SentPubcomp(mid)]
      case _ => []
  }

  function DueAll(s: State, es: seq<Event>): seq<Sent>
    decreases |es|
  {
    if es == [] then [] else Due(s, es[0]) + DueAll(Step(s, es[0]).0, es[1..])
  }

  /** A PUBLISH and a PUBREL that arrive are answered at once, by what is due and nothing else. */
  lemma AnsweredAtOnce(s: State, e: Event)
    requires e.Incoming? || e.Pubrel?
    ensures Step(s, e).0.handed == s.handed + Due(s, e)
  {
    hide Hand, RemoveIn;
    assert s.handed + [] == s.handed;
    match e
    case Incoming(qos, mid) =>
      HandFrame(IncReceiveQuota(DecReceiveQuota(s)), SentPuback(mid));
      HandFrame(DecReceiveQuota(s), SentPubrec(mid));
    case Pubrel(mid) =>
      HandFrame(IncReceiveQuota(s), SentPubcomp(mid));
      RemovalHandsNothing(IncReceiveQuota(s), mid);
      RemovalHandsNothing(Hand(IncReceiveQuota(s), SentPubcomp(mid)).0, mid);
  }

  lemma {:induction false} RemovalHandsNothing(s: State, mid: Word16)
    ensures RemoveIn(s, mid).0.handed == s.handed && RemoveIn(s, mid).0.received == s.received
    ensures RemoveIn(s, mid).2 == Success ==> RemoveIn(s, mid).1.Some?
  {
    hide FirstIn;
  }

  /** A PUBREC that reports no failure is answered by PUBREL, unless it names a message with QoS 1. */
  lemma PubrecAnswered(s: State, mid: Word16, reason: Byte)
    requires s.sockOpen && s.active && mid != 0 && (reason < 0x80 || !s.v5)
    ensures var i := FirstOut(s.out, mid);
            var (r, rc) := Step(s, Pubrec(mid, reason));
            if i < |s.out| && s.out[i].qos == 1 then r == s && rc == Protocol
            else
              r.handed == s.handed + [SentPubrel(mid)] &&
              r.out == if i < |s.out| then s.out[i := s.out[i].(state := WaitForPubcomp)] else s.out
  {
    hide Hand, FirstOut;
    HandFrame(UpdateOut(s, mid, WaitForPubcomp, 2).0, SentPubrel(mid));
  }

  lemma AnswersSnoc(handed: seq<Sent>, p: Sent)
    ensures Answers(handed + [p]) ==
            Answers(handed) + if p.SentPuback? || p.SentPubrec? || p.SentPubcomp? then [p] else []
  {
    assert (handed + [p])[..|handed|] == handed;
  }

  lemma HandAnswers(s: State, p: Sent)
    ensures Answers(Hand(s, p).0.handed) ==
            Answers(s.handed) + if s.sockOpen && (p.SentPuback? || p.SentPubrec? || p.SentPubcomp?) then [p] else []
  {
    hide Answers;
    HandFrame(s, p);
    AnswersSnoc(s.handed, p);
    assert s.handed + [] == s.handed;
    assert Answers(s.handed) + [] == Answers(s.handed);
  }

  lemma {:induction false} ReleaseAnswersNothing(s: State, i: nat)
    requires i <= |s.out|
    ensures Answers(Release(s, i).handed) == Answers(s.handed)
    decreases |s.out| - i
  {
    hide Answers, Hand;
    if i < |s.out| && s.outQuota > 0 {
      if s.out[i].state.Invalid? {
        var m := s.out[i];
        var s0, p := s.(out := s.out[i := Released(m)]), SentPublish(m.uid, m.mid, m.qos, m.dup);
        HandFrame(s0, p);
        HandAnswers(s0, p);
        var s1 := Hand(s0, p).0;
        ReleaseAnswersNothing(s1.(outQuota := s1.outQuota - 1), i + 1);
      } else {
        ReleaseAnswersNothing(s, i + 1);
      }
    }
  }

  lemma {:induction false} RetryAnswersNothing(s: State, i: nat)
    requires i <= |s.out|
    ensures Answers(Retry(s, i).handed) == Answers(s.handed)
    decreases |s.out| - i
  {
    hide Answers, Hand;
    if i < |s.out| {
      var m := s.out[i];
      var s0 := s.(out := s.out[i := m.(dup := true)]);
      HandAnswers(s0, SentPublish(m.uid, m.mid, m.qos, true));
      HandAnswers(s0, SentPubrel(m.mid));
      RetryAnswersNothing(RetryOne(s, i), i + 1);
    }
  }

  lemma OutHandsNothing(s: State, mid: Word16, qos: nat)
    ensures RemoveOut(s, mid, qos).0.handed == s.handed && RemoveOut(s, mid, qos).0.received == s.received
    ensures UpdateOut(s, mid, WaitForPubcomp, qos).0.handed == s.handed
  {
    hide FirstOut;
  }

  /** Every event adds the answers that are due, in order, and no other. */
  lemma {:induction false} StepAnswers(s: State, e: Event)
    ensures Answers(Step(s, e).0.handed) == Answers(s.handed) + Due(s, e)
  {
    hide Answers, Hand, Release, Retry, RemoveOut, UpdateOut, DoIncoming, DoPubrel, Reset;
    assert Answers(s.handed) + [] == Answers(s.handed);
    match e
    case Publish(qos) => ReleaseAnswersNothing(Queued(s, qos), 0);
    case PublishQos0 => HandAnswers(s.(lastMid := NextMid(s.lastMid)), SentQos0(NextMid(s.lastMid)));
    case Disconnect => HandAnswers(s.(active := false), SentDisconnect);
    case Ack(mid, qos) =>
      OutHandsNothing(IncSendQuota(s), mid, qos);
      ReleaseAnswersNothing(RemoveOut(IncSendQuota(s), mid, qos).0, 0);
    case Pubrec(mid, reason) =>
      OutHandsNothing(s, mid, 2);
      HandAnswers(UpdateOut(s, mid, WaitForPubcomp, 2).0, SentPubrel(mid));
      ReleaseAnswersNothing(IncSendQuota(RemoveOut(s, mid, 2).0), 0);
    case Incoming(qos, mid) => AnsweredAppended(s, e);
    case Pubrel(mid) => AnsweredAppended(s, e);
    case SocketLoss =>
    case Reconnect(ok) => ResetHandsNothing(s);
    case Connack(reason, max) =>
      RetryAnswersNothing(s.(outMax := MaximumAfter(s, max), outQuota := MaximumAfter(s, max), active := true), 0);
  }

  lemma AnsweredAppended(s: State, e: Event)
    requires e.Incoming? || e.Pubrel?
    ensures Answers(Step(s, e).0.handed) == Answers(s.handed) + Due(s, e)
  {
    hide Step, Answers;
    AnsweredAtOnce(s, e);
    if |Due(s, e)| == 1 {
      AnswersSnoc(s.handed, Due(s, e)[0]);
      assert Due(s, e) == [Due(s, e)[0]];
    } else {
      assert s.handed + [] == s.handed && Answers(s.handed) + [] == Answers(s.handed);
    }
  }

  lemma ResetHandsNothing(s: State)
    ensures Reset(s).handed == s.handed && Reset(s).received == s.received
  {
    ResetInHandsNothing(s.(inQuota := s.inMax, inLen := 0), 0);
    var s1 := ResetIncoming(s);
    ResetOutHandsNothing(s1.(outQuota := s1.outMax, outLen := 0), 0);
  }

  lemma {:induction false} ResetInHandsNothing(s: State, i: nat)
    requires i <= |s.inc|
    ensures ResetIn(s, i).handed == s.handed && ResetIn(s, i).received == s.received
    decreases |s.inc| - i
  {
    if i < |s.inc| { ResetInHandsNothing(ResetInOne(s, i), if s.inc[i].qos == 2 then i + 1 else i); }
  }

  lemma {:induction false} ResetOutHandsNothing(s: State, i: nat)
    requires i <= |s.out|
    ensures ResetOut(s, i).handed == s.handed && ResetOut(s, i).received == s.received
    decreases |s.out| - i
  {
    hide ResetState;
    if i < |s.out| { ResetOutHandsNothing(ResetOutOne(s, i), i + 1); }
  }

  /** Over any run the answers handed to the sender are those that were due, in the order in which the
      packets they answer arrived. */
  lemma {:induction false} RunAnswers(s: State, es: seq<Event>)
    ensures Answers(RunEvents(s, es).handed) == Answers(s.handed) + DueAll(s, es)
    decreases |es|
  {
    hide Step, Answers, Due;
    if es == [] {
      assert Answers(s.handed) + [] == Answers(s.handed);
    } else {
      var r := Step(s, es[0]).0;
      StepAnswers(s, es[0]);
      RunAnswers(r, es[1..]);
      assert (Answers(s.handed) + Due(s, es[0])) + DueAll(r, es[1..]) == Answers(s.handed) + (Due(s, es[0]) + DueAll(r, es[1..]));
    }
  }

  function Pubrecs(ps: seq<Sent>): nat {
    if ps == [] then 0 else (if ps[0].SentPubrec? then 1 else 0) + Pubrecs(ps[1..])
  }

  lemma {:induction false} PubrecsAppend(a: seq<Sent>, b: seq<Sent>)
    ensures Pubrecs(a + b) == Pubrecs(a) + Pubrecs(b)
  {
    if a == [] {
      assert a + b == b;
    } else {
      assert (a + b)[1..] == a[1..] + b;
      PubrecsAppend(a[1..], b);
    }
  }

  /** An event counts a QoS 2 message as received exactly if a PUBREC is due. */
  lemma {:induction false} ReceivedMeansPubrec(s: State, e: Event)
    ensures Step(s, e).0.received == s.received + Pubrecs(Due(s, e))
  {
    hide Hand, Release, Retry, RemoveOut, RemoveIn, UpdateOut, Reset;
    match e
    case Publish(qos) => ReleaseFrame(Queued(s, qos), 0);
    case PublishQos0 => HandFrame(s.(lastMid := NextMid(s.lastMid)), SentQos0(NextMid(s.lastMid)));
    case Disconnect => HandFrame(s.(active := false), SentDisconnect);
    case Ack(mid, qos) =>
      OutHandsNothing(IncSendQuota(s), mid, qos);
      ReleaseFrame(RemoveOut(IncSendQuota(s), mid, qos).0, 0);
    case Pubrec(mid, reason) => PubrecOnlyOut(s, mid, reason);
    case Incoming(qos, mid) =>
      HandFrame(IncReceiveQuota(DecReceiveQuota(s)), SentPuback(mid));
      HandFrame(DecReceiveQuota(s), SentPubrec(mid));
    case Pubrel(mid) =>
      HandFrame(IncReceiveQuota(s), SentPubcomp(mid));
      RemovalHandsNothing(IncReceiveQuota(s), mid);
      RemovalHandsNothing(Hand(IncReceiveQuota(s), SentPubcomp(mid)).0, mid);
    case SocketLoss =>
    case Reconnect(ok) => ResetHandsNothing(s);
    case Connack(reason, max) => ConnackOnlyOut(s, reason, max);
  }

  /** Over any run of a new client, as many PUBRECs are handed to the sender as QoS 2 messages were
      received: none is answered otherwise, and none twice. */
  lemma {:induction false} PubrecsAreReceived(s: State, es: seq<Event>)
    requires s.received == Pubrecs(Answers(s.handed))
    ensures var r := RunEvents(s, es); r.received == Pubrecs(Answers(r.handed))
    decreases |es|
  {
    hide Step, Answers, Due, Pubrecs;
    if es != [] {
      StepAnswers(s, es[0]);
      ReceivedMeansPubrec(s, es[0]);
      PubrecsAppend(Answers(s.handed), Due(s, es[0]));
      PubrecsAreReceived(Step(s, es[0]).0, es[1..]);
    }
  }

  /** A new client, whatever happens to it: what it has answered is what was due, and it has sent one PUBREC
      for each QoS 2 message it received. */
  lemma NewClientAnswers(v5: bool, outMax: nat, inMax: nat, plan: seq<bool>, es: seq<Event>)
    ensures var s := Fresh(v5, outMax, inMax, plan);
            var r := RunEvents(s, es);
            Answers(r.handed) == DueAll(s, es) && r.received == Pubrecs(DueAll(s, es))
  {
    hide RunEvents, DueAll;
    var s := Fresh(v5, outMax, inMax, plan);
    assert Answers(s.handed) == [] && Pubrecs([]) == 0;
    RunAnswers(s, es);
    PubrecsAreReceived(s, es);
    assert [] + DueAll(s, es) == DueAll(s, es);
  }
}
