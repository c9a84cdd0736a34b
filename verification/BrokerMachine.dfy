/** The broker as a state machine: what every operation makes of the clients, of the record of who has
    had which message, and of the retained messages. A run is a sequence of operations, whatever they are
    and however their sends end; the database class is proved to run like this machine. At the end stands
    a reachable state in which a client has nothing in flight and no quota left. */
module BrokerMachine {
  import opened Basics
  import opened BrokerSpec
  import opened BrokerBooks
  import Flow = BrokerFlow

  datatype Machine = Machine(
    contexts: seq<Context>, dests: set<(Stored, nat)>, retained: seq<Option<Stored>>, lastId: nat)

  /** The first message of a list that was received with this id. */
  function FirstFrom(l: seq<ClientMsg>, mid: Word16): Option<Stored> {
    if l == [] then None
    else if l[0].store.sourceMid == mid then Some(l[0].store)
    else FirstFrom(l[1..], mid)
  }

  lemma {:induction false} FirstFromIs(l: seq<ClientMsg>, mid: Word16, i: nat)
    requires i <= |l| && forall k :: 0 <= k < i ==> l[k].store.sourceMid != mid
    requires i < |l| ==> l[i].store.sourceMid == mid
    ensures FirstFrom(l, mid) == if i < |l| then Some(l[i].store) else None
    decreases i
  {
    if i > 0 {
      FirstFromIs(l[1..], mid, i - 1);
    }
  }

  /** The message that a PUBLISH stands for, and whether it is still in line from an earlier one. */
  function MessageOf(m: Machine, c: nat, mid: Word16, hasTopic: bool, qos: Qos, payloadLen: nat, expiryInterval: nat,
                     now: nat): (Stored, bool)
    requires c < |m.contexts|
  {
    var md := m.contexts[c].msgsIn;
    var found := if qos > 0 then FirstFrom(md.inflight + md.queued, mid) else None;
    if found.Some? then (found.value, true)
    else (Stored(m.lastId + 1, payloadLen, qos, mid, hasTopic, if expiryInterval > 0 then now + expiryInterval else 0), false)
  }

  /** A message goes to one client, if it admits it. */
  function InsertOf(limits: Limits, m: Machine, c: nat, dir: Direction, mid: Word16, qos: Qos, retain: bool, s: Stored): Machine
    requires c < |m.contexts|
  {
    var ctx := m.contexts[c];
    var a := Flow.Admittance(limits, ctx, dir, qos, retain, (s, ctx.id) in m.dests);
    if a.Refuse? then m
    else m.(contexts := m.contexts[c := Flow.Delivered(ctx, dir, mid, qos, retain, s, a.state)],
            dests := Flow.Noted(limits, dir, retain, m.dests, s, ctx.id))
  }

  /** A PUBLISH of QoS 0 or 1 is handed on, and one of QoS 2 put in line unless it is there. */
  function PublishOf(limits: Limits, m: Machine, c: nat, mid: Word16, hasTopic: bool, qos: Qos, retain: bool, payloadLen: nat,
                     expiryInterval: nat, now: nat, ds: seq<Flow.Delivery>, queued: bool): Machine
    requires c < |m.contexts|
  {
    var (s, repeated) := MessageOf(m, c, mid, hasTopic, qos, payloadLen, expiryInterval, now);
    var m1 := if repeated then m else m.(lastId := m.lastId + 1);
    if qos < 2 then
      var h := Flow.Handed(limits, QuotaTaken(m.contexts, c, qos), m.dests, s, ds);
      m1.(contexts := if qos == 1 && (queued || !m.contexts[c].v5) then QuotaGiven(h.0, c) else h.0,
          dests := h.1, retained := AfterRetains(m.retained, s, ds))
    else if repeated then m1
    else InsertOf(limits, m1, c, Incoming, mid, qos, retain, s)
  }

  function ResumeOf(limits: Limits, cs: seq<Context>, session: Session, f: nat): seq<Context>
    requires f < |cs|
  {
    var found, c := cs[f], Fresh(session);
    if HasNoMessages(found) then cs + [c]
    else
      cs[f := found.(msgsIn := NOTHING, msgsOut := NOTHING)] +
      [Flow.ResetIncoming(limits, Flow.ResetOutgoing(limits, c.(msgsIn := found.msgsIn, msgsOut := found.msgsOut)))]
  }

  function RestartOf(limits: Limits, c: Context, cleanStart: bool): Context {
    var r := Flow.ResetIncoming(limits, Flow.ResetOutgoing(limits, Offline(c)));
    if cleanStart then Flow.Emptied(r) else r
  }

  /** A PUBACK, or a PUBCOMP, with the code that it is answered by. */
  function AckOf(ctx: Context, mid: Word16, comp: bool): (MsgData, Rc) {
    var md := Flow.Raised(ctx.msgsOut);
    if !ctx.active then (ctx.msgsOut, Protocol)
    else if mid == 0 then (md, Protocol)
    else Flow.DeleteOutgoing(md, mid, WaitForPubcomp, if comp then 2 else 1)
  }

  function PubrecOf(ctx: Context, mid: Word16, reason: Byte): (MsgData, Rc) {
    if !ctx.active || mid == 0 then (ctx.msgsOut, Protocol)
    else if reason < 0x80 then Flow.UpdateOutgoing(ctx.msgsOut, mid, WaitForPubcomp, 2)
    else Flow.DeleteOutgoing(ctx.msgsOut, mid, WaitForPubrec, 2)
  }

  /** A PUBREL: the messages it names are handed on; with the answer the quota rises. */
  function PubrelOf(limits: Limits, m: Machine, c: nat, mid: Word16, fan: nat -> Fanout): (Machine, Rc)
    requires c < |m.contexts|
  {
    var md := m.contexts[c].msgsIn;
    if !m.contexts[c].active || mid == 0 then (m, Protocol)
    else
      var r := Flow.ReleaseIncoming(md, mid, OkOf(fan));
      var h := ReleasedTo(limits, (m.contexts, m.dests, m.retained), md.inflight, mid, fan, 0);
      var answered := r.1 == Success || r.1 == NotFound;
      (m.(contexts := Put(h.0, c, Incoming, if answered then Flow.Raised(r.0) else r.0), dests := h.1, retained := h.2), r.1)
  }

  /** One operation. */
  function StepOf(limits: Limits, m: Machine, op: Op): Machine {
    var cs := m.contexts;
    match op
    case Connect(session) => m.(contexts := cs + [Fresh(session)])
    case Resume(session, f) =>
      if f < |cs| && cs[f].id == session.id then m.(contexts := ResumeOf(limits, cs, session, f)) else m
    case Restart(c, cleanStart) =>
      if c < |cs| then m.(contexts := cs[c := RestartOf(limits, cs[c], cleanStart)]) else m
    case Lost(c) =>
      if c < |cs| then m.(contexts := cs[c := Offline(cs[c])]) else m
    case Publish(c, mid, hasTopic, qos, retain, payloadLen, expiryInterval, now, ds, queued) =>
      if c < |cs| then PublishOf(limits, m, c, mid, hasTopic, qos, retain, payloadLen, expiryInterval, now, ds, queued) else m
    case SendRetained(c, topic, mid, qos) =>
      if c < |cs| && topic < |m.retained| && m.retained[topic].Some?
      then InsertOf(limits, m, c, Outgoing, mid, qos, true, m.retained[topic].value) else m
    case Puback(c, mid) =>
      if c < |cs| then m.(contexts := Put(cs, c, Outgoing, AckOf(cs[c], mid, false).0)) else m
    case Pubcomp(c, mid) =>
      if c < |cs| then m.(contexts := Put(cs, c, Outgoing, AckOf(cs[c], mid, true).0)) else m
    case Pubrec(c, mid, reason, _) =>
      if c < |cs| then m.(contexts := Put(cs, c, Outgoing, PubrecOf(cs[c], mid, reason).0)) else m
    case Pubrel(c, mid, fan, _) =>
      if c < |cs| then PubrelOf(limits, m, c, mid, fan).0 else m
    case Write(c, now, out) =>
      if c < |cs| && cs[c].connected && cs[c].active && cs[c].hasId
      then m.(contexts := cs[c := Flow.Write(cs[c], now, out).0]) else m
    case Delete(c) =>
      if c < |cs| then m.(contexts := cs[c := Flow.Emptied(cs[c])]) else m
    case Compact => m
  }

  function RunOf(limits: Limits, m: Machine, ops: seq<Op>): Machine
    decreases |ops|
  {
    if ops == [] then m else RunOf(limits, StepOf(limits, m, ops[0]), ops[1..])
  }

  lemma RunStep(limits: Limits, m: Machine, ops: seq<Op>, i: nat)
    requires i < |ops|
    ensures RunOf(limits, m, ops[i..]) == RunOf(limits, StepOf(limits, m, ops[i]), ops[i + 1..])
  {
    hide StepOf;
    assert ops[i..][0] == ops[i] && ops[i..][1..] == ops[i + 1..];
  }

  lemma RunNone(limits: Limits, m: Machine)
    ensures RunOf(limits, m, []) == m
  {}

  // ---------- Quotas ----------

  /** A client that may have one message in flight publishes a message that expires, and is its own
      subscriber. */
  function Expiring(): seq<Op> {
    [Connect(Session(0, false, false, 2, 10, 1)),
     Publish(0, 1, true, 1, false, 0, 5, 0, [Flow.ToClient(0, 1, 1, false)], true),
     Write(0, 6, _ => Flow.Sent)]
  }

  const SMALL := Limits(0, 100, 0, false, false)

  /** A message that expires in flight leaves without its quota: afterwards nothing is in flight and no
      quota is left, so quota and messages in flight do not add up to the maximum. */
  lemma ExpiryLosesQuota()
    ensures var cs := RunOf(SMALL, Machine([], {}, [], 0), Expiring()).contexts;
            |cs| == 1 && cs[0].msgsOut.inflight == [] && cs[0].msgsOut.queued == [] &&
            cs[0].msgsOut.quota == 0 && cs[0].msgsOut.maximum == 1
  {
    hide StepOf, Flow.Write;
    var m0 := Machine([], {}, [], 0);
    var ops := Expiring();
    var m1 := StepOf(SMALL, m0, ops[0]);
    var m2 := StepOf(SMALL, m1, ops[1]);
    AfterConnect();
    AfterPublish(m1);
    AfterWrite(m2, ops[2]);
    assert ops[0..] == ops && ops[3..] == [];
    RunStep(SMALL, m0, ops, 0);
    RunStep(SMALL, m1, ops, 1);
    RunStep(SMALL, m2, ops, 2);
    RunNone(SMALL, StepOf(SMALL, m2, ops[2]));
  }

  lemma AfterConnect()
    ensures StepOf(SMALL, Machine([], {}, [], 0), Expiring()[0]) ==
            Machine([Fresh(Session(0, false, false, 2, 10, 1))], {}, [], 0)
  {}

  /** The message in flight to the client. */
  function Doomed(): ClientMsg {
    ClientMsg(Stored(1, 0, 1, 1, true, 5), 1, 1, false, PublishQos1, false)
  }

  predicate OneDoomed(m: Machine) {
    && |m.contexts| == 1 && m.contexts[0].connected && m.contexts[0].active && m.contexts[0].hasId
    && m.contexts[0].msgsIn.inflight == m.contexts[0].msgsIn.queued == []
    && m.contexts[0].msgsOut.inflight == [Doomed()] && m.contexts[0].msgsOut.queued == []
    && m.contexts[0].msgsOut.quota == 0 && m.contexts[0].msgsOut.maximum == 1
  }

  lemma AfterPublish(m: Machine)
    requires m == Machine([Fresh(Session(0, false, false, 2, 10, 1))], {}, [], 0)
    ensures OneDoomed(StepOf(SMALL, m, Expiring()[1]))
  {
    var cs, s := QuotaTaken(m.contexts, 0, 1), Doomed().store;
    var d := Flow.ToClient(0, 1, 1, false);
    assert Flow.Admittance(SMALL, cs[0], Outgoing, 1, false, false) == Flow.Admit(PublishQos1, 0);
    var r := Flow.HandedOne(SMALL, cs, {}, s, d);
    assert [d][1..] == [];
    assert Flow.Handed(SMALL, cs, {}, s, [d]) == Flow.Handed(SMALL, r.0, r.1, s, []) == r;
    assert r.0[0].msgsOut.inflight == [Doomed()];
    assert MessageOf(m, 0, 1, true, 1, 0, 5, 0) == (s, false);
  }

  lemma AfterWrite(m: Machine, op: Op)
    requires OneDoomed(m) && op == Expiring()[2]
    ensures var cs := StepOf(SMALL, m, op).contexts;
            |cs| == 1 && cs[0].msgsOut.inflight == [] && cs[0].msgsOut.queued == [] &&
            cs[0].msgsOut.quota == 0 && cs[0].msgsOut.maximum == 1
  {
    hide Count12, Bytes12, ListBytes;
    var c := m.contexts[0];
    assert Flow.WriteIn([], c.msgsIn.quota, c.msgsIn.maximum, 6, op.out, 0) == Flow.Written([], c.msgsIn.quota, 0, true);
    assert [Doomed()][1..] == [];
    assert Flow.WriteOut([Doomed()], 6, op.out, 0) == Flow.WriteOut([], 6, op.out, 0) == Flow.Written([], 0, 0, true);
  }
}
