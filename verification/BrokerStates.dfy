/** What the broker's operations keep of the states of outgoing messages: only messages with QoS 0 are
    published as such. */
module BrokerStates {
  import opened Basics
  import opened BrokerSpec
  import opened BrokerBooks
  import opened BrokerFlow
  import opened BrokerMachine
  import Flow = BrokerFlow

  ghost predicate Fitting(md: MsgData) {
    AllFit(md.inflight) && AllFit(md.queued)
  }

  ghost predicate ContextsFit(cs: seq<Context>) {
    forall c :: 0 <= c < |cs| ==> Fitting(cs[c].msgsOut)
  }

  lemma {:induction false} PutFits(cs: seq<Context>, c: nat, dir: Direction, md: MsgData)
    requires c < |cs| && ContextsFit(cs) && (dir.Outgoing? ==> Fitting(md))
    ensures ContextsFit(Put(cs, c, dir, md))
  {
    hide Fitting;
  }

  lemma {:induction false} OneFits(cs: seq<Context>, c: nat, d: Context)
    requires c < |cs| && ContextsFit(cs) && Fitting(d.msgsOut)
    ensures ContextsFit(cs[c := d])
  {
    hide Fitting;
  }

  /** A message that is handed out gets a state that fits the QoS it was asked for, and so its own. */
  lemma {:induction false} DeliveredFits(limits: Limits, c: Context, dir: Direction, mid: Word16, qos: Qos, retain: bool, s: Stored, already: bool)
    requires Fitting(c.msgsOut)
    ensures var a := Admittance(limits, c, dir, qos, retain, already);
            a.Admit? ==> Fitting(Delivered(c, dir, mid, qos, retain, s, a.state).msgsOut)
  {
    hide ReadyForFlight, ReadyForQueue;
  }

  lemma {:induction false} HandedOneFits(limits: Limits, cs: seq<Context>, dests: set<(Stored, nat)>, s: Stored, d: Delivery)
    requires ContextsFit(cs)
    ensures ContextsFit(HandedOne(limits, cs, dests, s, d).0)
  {
    hide Fitting, Admittance, Delivered;
    if d.ToClient? && d.client < |cs| {
      var c := cs[d.client];
      DeliveredFits(limits, c, Outgoing, d.mid, d.qos, d.retain, s, (s, c.id) in dests);
    }
  }

  lemma {:induction false} HandedFits(limits: Limits, cs: seq<Context>, dests: set<(Stored, nat)>, s: Stored, ds: seq<Delivery>)
    requires ContextsFit(cs)
    ensures ContextsFit(Handed(limits, cs, dests, s, ds).0)
    decreases |ds|
  {
    hide ContextsFit, HandedOne;
    if ds != [] {
      HandedOneFits(limits, cs, dests, s, ds[0]);
      var r := HandedOne(limits, cs, dests, s, ds[0]);
      HandedFits(limits, r.0, r.1, s, ds[1..]);
    }
  }

  lemma {:induction false} ReleasedToFits(limits: Limits, h: Outside, l: seq<ClientMsg>, mid: Word16, fan: nat -> Fanout, k: nat)
    requires ContextsFit(h.0)
    ensures ContextsFit(ReleasedTo(limits, h, l, mid, fan, k).0)
    decreases |l|
  {
    hide ContextsFit, Handed;
    if l != [] {
      if l[0].mid != mid {
        ReleasedToFits(limits, h, l[1..], mid, fan, k);
      } else {
        var s := l[0].store;
        HandedFits(limits, h.0, h.1, s, fan(k).ds);
        ReleasedToFits(limits, ReleasedOne(limits, h, s, fan(k)), l[1..], mid, fan, if s.hasTopic then k + 1 else k);
      }
    }
  }

  lemma {:induction false} AckedFits(l: seq<ClientMsg>, mid: Word16, awaited: MsgState, qos: Qos)
    requires AllFit(l)
    ensures AllFit(Acked(l, mid, awaited, qos).0)
  {
    hide Offends;
    if l != [] {
      assert forall i :: 1 <= i < |l| ==> l[i] == l[1..][i - 1];
      AckedFits(l[1..], mid, awaited, qos);
    }
  }

  lemma {:induction false} OpenFits(md: MsgData, k: nat)
    requires Fitting(md) && k <= |md.queued|
    ensures Fitting(Open(md, k))
  {}

  lemma {:induction false} DeleteOutgoingFits(md: MsgData, mid: Word16, awaited: MsgState, qos: Qos)
    requires Fitting(md)
    ensures Fitting(DeleteOutgoing(md, mid, awaited, qos).0)
  {
    hide Count12, Bytes12, ListBytes, AllFit, Open;
    AckedFits(md.inflight, mid, awaited, qos);
    var cut := Relist(md, Acked(md.inflight, mid, awaited, qos).0, md.queued);
    OpenFits(cut, Room(cut));
  }

  lemma {:induction false} UpdateOutgoingFits(md: MsgData, mid: Word16, state: MsgState, qos: Qos)
    requires Fitting(md) && !state.PublishQos0?
    ensures Fitting(UpdateOutgoing(md, mid, state, qos).0)
  {}

  lemma {:induction false} RequeueFits(limits: Limits, md: MsgData, i: nat)
    requires i <= |md.queued| && Fitting(md)
    ensures Fitting(Requeue(limits, md, i))
    decreases |md.queued| - i
  {
    hide ReadyForFlight;
    if i < |md.queued| {
      var counted := Count(md, md.queued[i]);
      RequeueFits(limits, counted, i + 1);
      RequeueFits(limits, DequeueFirst(SetQueued(counted, i, PublishState(md.queued[i].qos))), i);
    }
  }

  lemma {:induction false} ResetFits(limits: Limits, c: Context)
    requires Fitting(c.msgsOut)
    ensures Fitting(ResetIncoming(limits, ResetOutgoing(limits, c)).msgsOut)
  {
    hide Count12, Bytes12, ListBytes, Requeue, Qos2Only;
    var out := Tally(c.msgsOut, c.msgsOut.inflight).(inflight := ResetAll(c.msgsOut.inflight), quota := c.msgsOut.maximum);
    RequeueFits(limits, out, 0);
  }

  lemma {:induction false} WriteOutFits(l: seq<ClientMsg>, now: nat, out: nat -> SendResult, k: nat)
    requires AllFit(l)
    ensures AllFit(WriteOut(l, now, out, k).l)
  {
    hide Expired, ToPublish;
    if l != [] {
      assert forall i :: 1 <= i < |l| ==> l[i] == l[1..][i - 1];
      WriteOutFits(l[1..], now, out, k);
      WriteOutFits(l[1..], now, out, k + 1);
    }
  }

  lemma {:induction false} WriteFits(c: Context, now: nat, out: nat -> SendResult)
    requires Fitting(c.msgsOut)
    ensures Fitting(Flow.Write(c, now, out).0.msgsOut)
  {
    hide Count12, Bytes12, ListBytes, WriteIn, WriteOut, WriteQueueIn, Open, Admitted, AllFit;
    var a := WriteIn(c.msgsIn.inflight, c.msgsIn.quota, c.msgsIn.maximum, now, out, 0);
    WriteOutFits(c.msgsOut.inflight, now, out, a.sends);
    var b := WriteOut(c.msgsOut.inflight, now, out, a.sends);
    var md := Relist(c.msgsOut, b.l, c.msgsOut.queued);
    OpenFits(md, Admitted(md));
  }

  // ---------- Runs ----------

  lemma {:induction false} NewFits(cs: seq<Context>, d: Context)
    requires ContextsFit(cs) && Fitting(d.msgsOut)
    ensures ContextsFit(cs + [d])
  {
    hide Fitting;
  }

  lemma {:induction false} NothingFits(session: Session)
    ensures Fitting(NOTHING) && Fitting(Fresh(session).msgsOut)
  {}

  lemma {:induction false} ResumeFits(limits: Limits, cs: seq<Context>, session: Session, f: nat)
    requires ContextsFit(cs) && f < |cs|
    ensures ContextsFit(ResumeOf(limits, cs, session, f))
  {
    hide ResetIncoming, ResetOutgoing, Fitting;
    var got := Fresh(session).(msgsIn := cs[f].msgsIn, msgsOut := cs[f].msgsOut);
    var reset := ResetIncoming(limits, ResetOutgoing(limits, got));
    NothingFits(session);
    NewFits(cs, Fresh(session));
    ResetFits(limits, got);
    OneFits(cs, f, cs[f].(msgsIn := NOTHING, msgsOut := NOTHING));
    NewFits(cs[f := cs[f].(msgsIn := NOTHING, msgsOut := NOTHING)], reset);
  }

  lemma {:induction false} RestartFits(limits: Limits, c: Context, cleanStart: bool)
    requires Fitting(c.msgsOut)
    ensures Fitting(RestartOf(limits, c, cleanStart).msgsOut)
  {
    hide ResetIncoming, ResetOutgoing;
    ResetFits(limits, Offline(c));
  }

  lemma {:induction false} InsertFits(limits: Limits, m: Machine, c: nat, dir: Direction, mid: Word16, qos: Qos, retain: bool, s: Stored)
    requires ContextsFit(m.contexts) && c < |m.contexts|
    ensures ContextsFit(InsertOf(limits, m, c, dir, mid, qos, retain, s).contexts)
  {
    hide Admittance, Delivered;
    var ctx := m.contexts[c];
    DeliveredFits(limits, ctx, dir, mid, qos, retain, s, (s, ctx.id) in m.dests);
  }

  lemma {:induction false} PublishFits(limits: Limits, m: Machine, c: nat, mid: Word16, hasTopic: bool, qos: Qos, retain: bool, payloadLen: nat,
                    expiryInterval: nat, now: nat, ds: seq<Delivery>, queued: bool)
    requires ContextsFit(m.contexts) && c < |m.contexts|
    ensures ContextsFit(PublishOf(limits, m, c, mid, hasTopic, qos, retain, payloadLen, expiryInterval, now, ds, queued).contexts)
  {
    hide Handed, ContextsFit, Put, InsertOf, AfterRetains, MessageOf, Raised;
    var cs := m.contexts;
    var (s, repeated) := MessageOf(m, c, mid, hasTopic, qos, payloadLen, expiryInterval, now);
    PutFits(cs, c, Incoming, cs[c].msgsIn.(quota := Less(cs[c].msgsIn.quota, 1)));
    HandedFits(limits, QuotaTaken(cs, c, qos), m.dests, s, ds);
    var h := Handed(limits, QuotaTaken(cs, c, qos), m.dests, s, ds);
    PutFits(h.0, c, Incoming, Raised(h.0[c].msgsIn));
    InsertFits(limits, m.(lastId := m.lastId + 1), c, Incoming, mid, qos, retain, s);
  }

  lemma {:induction false} AckFits(ctx: Context, mid: Word16, comp: bool)
    requires Fitting(ctx.msgsOut)
    ensures Fitting(AckOf(ctx, mid, comp).0)
  {
    hide DeleteOutgoing;
    DeleteOutgoingFits(Raised(ctx.msgsOut), mid, WaitForPubcomp, if comp then 2 else 1);
  }

  lemma {:induction false} PubrecFits(ctx: Context, mid: Word16, reason: Byte)
    requires Fitting(ctx.msgsOut)
    ensures Fitting(PubrecOf(ctx, mid, reason).0)
  {
    hide DeleteOutgoing, UpdateOutgoing;
    UpdateOutgoingFits(ctx.msgsOut, mid, WaitForPubcomp, 2);
    DeleteOutgoingFits(ctx.msgsOut, mid, WaitForPubrec, 2);
  }

  lemma {:induction false} PubrelFits(limits: Limits, m: Machine, c: nat, mid: Word16, fan: nat -> Fanout)
    requires ContextsFit(m.contexts) && c < |m.contexts|
    ensures ContextsFit(PubrelOf(limits, m, c, mid, fan).0.contexts)
  {
    hide ContextsFit, Put, ReleasedTo, ReleaseIncoming, OkOf, Raised;
    var md := m.contexts[c].msgsIn;
    var h := ReleasedTo(limits, (m.contexts, m.dests, m.retained), md.inflight, mid, fan, 0);
    var r := ReleaseIncoming(md, mid, OkOf(fan)).0;
    ReleasedToFits(limits, (m.contexts, m.dests, m.retained), md.inflight, mid, fan, 0);
    PutFits(h.0, c, Incoming, r);
    PutFits(h.0, c, Incoming, Raised(r));
  }

  /** Every operation keeps that only messages with QoS 0 are in the state to be published as such. */
  lemma {:induction false} StepFits(limits: Limits, m: Machine, op: Op)
    requires ContextsFit(m.contexts)
    ensures ContextsFit(StepOf(limits, m, op).contexts)
  {
    hide Fitting, PublishOf, InsertOf, ResumeOf, RestartOf, AckOf, PubrecOf, PubrelOf, Flow.Write, Put, Fresh, Emptied, Offline;
    var cs := m.contexts;
    match op
    case Connect(session) =>
      NothingFits(session);
      NewFits(cs, Fresh(session));
    case Resume(session, f) => if f < |cs| { ResumeFits(limits, cs, session, f); }
    case Restart(c, cleanStart) =>
      if c < |cs| {
        RestartFits(limits, cs[c], cleanStart);
        OneFits(cs, c, RestartOf(limits, cs[c], cleanStart));
      }
    case Lost(c) =>
      if c < |cs| {
        assert Offline(cs[c]).msgsOut == cs[c].msgsOut by { OfflineKeeps(cs[c]); }
        OneFits(cs, c, Offline(cs[c]));
      }
    case Publish(c, mid, hasTopic, qos, retain, payloadLen, expiryInterval, now, ds, queued) =>
      if c < |cs| { PublishFits(limits, m, c, mid, hasTopic, qos, retain, payloadLen, expiryInterval, now, ds, queued); }
    case SendRetained(c, topic, mid, qos) =>
      if c < |cs| && topic < |m.retained| && m.retained[topic].Some? {
        InsertFits(limits, m, c, Outgoing, mid, qos, true, m.retained[topic].value);
      }
    case Puback(c, mid) =>
      if c < |cs| {
        AckFits(cs[c], mid, false);
        PutFits(cs, c, Outgoing, AckOf(cs[c], mid, false).0);
      }
    case Pubcomp(c, mid) =>
      if c < |cs| {
        AckFits(cs[c], mid, true);
        PutFits(cs, c, Outgoing, AckOf(cs[c], mid, true).0);
      }
    case Pubrec(c, mid, reason, _) =>
      if c < |cs| {
        PubrecFits(cs[c], mid, reason);
        PutFits(cs, c, Outgoing, PubrecOf(cs[c], mid, reason).0);
      }
    case Pubrel(c, mid, fan, _) => if c < |cs| { PubrelFits(limits, m, c, mid, fan); }
    case Write(c, now, out) =>
      if c < |cs| {
        WriteFits(cs[c], now, out);
        OneFits(cs, c, Flow.Write(cs[c], now, out).0);
      }
    case Delete(c) =>
      if c < |cs| {
        EmptiedFits(cs[c]);
        OneFits(cs, c, Emptied(cs[c]));
      }
    case Compact =>
  }

  lemma {:induction false} OfflineKeeps(c: Context)
    ensures Offline(c).msgsOut == c.msgsOut
  {}

  lemma {:induction false} EmptiedFits(c: Context)
    ensures Fitting(Emptied(c).msgsOut)
  {}

  /** And so does every run. */
  lemma {:induction false} RunFits(limits: Limits, m: Machine, ops: seq<Op>)
    requires ContextsFit(m.contexts)
    ensures ContextsFit(RunOf(limits, m, ops).contexts)
    decreases |ops|
  {
    hide StepOf, ContextsFit;
    if ops != [] {
      StepFits(limits, m, ops[0]);
      RunFits(limits, StepOf(limits, m, ops[0]), ops[1..]);
    }
  }
}
