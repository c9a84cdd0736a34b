/** What publishing and releasing do to everybody else: retained messages, repeats and quotas. */
module BrokerRules {
  import opened Basics
  import opened BrokerSpec
  import opened BrokerBooks
  import opened BrokerMachine
  import Flow = BrokerFlow

  // ---------- Who is touched ----------

  /** Handing a message out changes nothing for a client that it is not for. */
  lemma {:induction false} OthersUntouched(limits: Limits, cs: seq<Context>, dests: set<(Stored, nat)>, s: Stored,
                                           ds: seq<Flow.Delivery>, c: nat)
    requires c < |cs| && forall i :: 0 <= i < |ds| && ds[i].ToClient? ==> ds[i].client != c
    ensures Flow.Handed(limits, cs, dests, s, ds).0[c] == cs[c]
    decreases |ds|
  {
    hide Flow.Admittance, Flow.Delivered, Flow.Noted;
    if ds != [] {
      var r := Flow.HandedOne(limits, cs, dests, s, ds[0]);
      assert |r.0| == |cs| && r.0[c] == cs[c];
      assert forall i :: 0 <= i < |ds| - 1 ==> ds[1..][i] == ds[i + 1];
      OthersUntouched(limits, r.0, r.1, s, ds[1..], c);
    }
  }

  /** After a publish a topic holds the message if it was retained there, nothing if the message was empty,
      and what it held before if it was not retained there. */
  lemma {:induction false} RetainedIs(retained: seq<Option<Stored>>, s: Stored, ds: seq<Flow.Delivery>, topic: nat)
    requires topic < |retained|
    ensures var r := AfterRetains(retained, s, ds);
            |r| == |retained| &&
            r[topic] == if exists i :: 0 <= i < |ds| && ds[i] == Flow.Retain(topic)
                        then (if s.payloadLen > 0 then Some(s) else None) else retained[topic]
    decreases |ds|
  {
    if ds != [] {
      var next := RetainOne(retained, s, ds[0]);
      RetainedIs(next, s, ds[1..], topic);
      assert forall i :: 0 <= i < |ds| - 1 ==> ds[1..][i] == ds[i + 1];
      if exists i :: 0 <= i < |ds| && ds[i] == Flow.Retain(topic) {
        var i :| 0 <= i < |ds| && ds[i] == Flow.Retain(topic);
        if i > 0 { assert ds[1..][i - 1] == Flow.Retain(topic); }
      }
    }
  }

  // ---------- Exactly once ----------

  /** A QoS 2 message whose identifier is still in line is neither stored nor put in line again. */
  lemma {:induction false} RepeatIgnored(limits: Limits, m: Machine, c: nat, mid: Word16, hasTopic: bool, retain: bool, payloadLen: nat,
                                         expiryInterval: nat, now: nat, ds: seq<Flow.Delivery>, queued: bool, i: nat)
    requires c < |m.contexts|
    requires var l := m.contexts[c].msgsIn.inflight + m.contexts[c].msgsIn.queued; i < |l| && l[i].store.sourceMid == mid
    ensures PublishOf(limits, m, c, mid, hasTopic, 2, retain, payloadLen, expiryInterval, now, ds, queued) == m
  {
    hide FirstFrom, InsertOf, Flow.Handed;
    var l := m.contexts[c].msgsIn.inflight + m.contexts[c].msgsIn.queued;
    FirstFromSome(l, mid, i);
  }

  lemma {:induction false} FirstFromSome(l: seq<ClientMsg>, mid: Word16, i: nat)
    requires i < |l| && l[i].store.sourceMid == mid
    ensures FirstFrom(l, mid).Some? && FirstFrom(l, mid).value.sourceMid == mid
  {
    if l[0].store.sourceMid != mid {
      FirstFromSome(l[1..], mid, i - 1);
    }
  }

  lemma {:induction false} FirstFromNone(l: seq<ClientMsg>, mid: Word16)
    requires forall i :: 0 <= i < |l| ==> l[i].store.sourceMid != mid
    ensures FirstFrom(l, mid) == None
  {
    if l != [] {
      assert forall i :: 0 <= i < |l| - 1 ==> l[1..][i] == l[i + 1];
      FirstFromNone(l[1..], mid);
    }
  }

  /** Otherwise the message is new: it gets the next id, and its expiry counts from now. */
  lemma {:induction false} FirstTime(m: Machine, c: nat, mid: Word16, hasTopic: bool, qos: Qos, payloadLen: nat, expiryInterval: nat, now: nat)
    requires c < |m.contexts|
    requires var l := m.contexts[c].msgsIn.inflight + m.contexts[c].msgsIn.queued;
             qos == 0 || forall i :: 0 <= i < |l| ==> l[i].store.sourceMid != mid
    ensures var (s, repeated) := MessageOf(m, c, mid, hasTopic, qos, payloadLen, expiryInterval, now);
            !repeated && s.dbId == m.lastId + 1 && s.qos == qos && s.sourceMid == mid &&
            s.payloadLen == payloadLen && s.hasTopic == hasTopic &&
            s.expiryTime == if expiryInterval > 0 then now + expiryInterval else 0
  {
    hide FirstFrom;
    if qos > 0 { FirstFromNone(m.contexts[c].msgsIn.inflight + m.contexts[c].msgsIn.queued, mid); }
  }

  /** A PUBREL that names nothing hands nothing on, so a repeated one delivers nothing twice. */
  lemma {:induction false} NothingNamed(limits: Limits, h: Outside, l: seq<ClientMsg>, mid: Word16, fan: nat -> Fanout, k: nat)
    requires forall i :: 0 <= i < |l| ==> l[i].mid != mid
    ensures ReleasedTo(limits, h, l, mid, fan, k) == h
    decreases |l|
  {
    if l != [] {
      assert forall i :: 0 <= i < |l| - 1 ==> l[1..][i] == l[i + 1];
      NothingNamed(limits, h, l[1..], mid, fan, k);
    }
  }

  /** A PUBREL that names one message hands that one on, once, if it has QoS 2 and a topic. */
  lemma {:induction false} OneNamed(limits: Limits, h: Outside, l: seq<ClientMsg>, mid: Word16, fan: nat -> Fanout, k: nat, i: nat)
    requires i < |l| && l[i].mid == mid && forall j :: 0 <= j < |l| && j != i ==> l[j].mid != mid
    ensures ReleasedTo(limits, h, l, mid, fan, k) ==
            if l[i].store.qos == 2 && l[i].store.hasTopic then
              (Flow.Handed(limits, h.0, h.1, l[i].store, fan(k).ds).0, Flow.Handed(limits, h.0, h.1, l[i].store, fan(k).ds).1,
               AfterRetains(h.2, l[i].store, fan(k).ds))
            else h
    decreases |l|
  {
    hide Flow.Handed, AfterRetains;
    var t := l[1..];
    assert forall j :: 0 <= j < |t| ==> t[j] == l[j + 1];
    if i == 0 {
      var next := ReleasedOne(limits, h, l[0].store, fan(k));
      NothingNamed(limits, next, t, mid, fan, k);
      NothingNamed(limits, next, t, mid, fan, k + 1);
    } else {
      OneNamed(limits, h, t, mid, fan, k, i - 1);
    }
  }

  // ---------- Quotas ----------

  /** A PUBLISH of QoS 1 costs one of the receive quota until it is answered: with the answer the quota is
      what it was, or 1 if it was used up; without, it is one less. Other QoS leave it alone. */
  lemma {:induction false} PublishQuota(limits: Limits, m: Machine, c: nat, mid: Word16, hasTopic: bool, qos: Qos, retain: bool, payloadLen: nat,
                                        expiryInterval: nat, now: nat, ds: seq<Flow.Delivery>, queued: bool)
    requires c < |m.contexts| && m.contexts[c].msgsIn.quota <= m.contexts[c].msgsIn.maximum
    ensures var md := m.contexts[c].msgsIn;
            var answered := queued || !m.contexts[c].v5;
            var r := PublishOf(limits, m, c, mid, hasTopic, qos, retain, payloadLen, expiryInterval, now, ds, queued).contexts;
            |r| == |m.contexts| &&
            r[c].msgsIn.quota ==
              if qos != 1 then md.quota
              else if !answered then (if md.quota == 0 then 0 else md.quota - 1)
              else if md.quota == 0 && md.maximum > 0 then 1 else md.quota
  {
    hide FirstFrom, Flow.Handed, Flow.Admittance, Flow.Noted, AddMessage;
    var (s, repeated) := MessageOf(m, c, mid, hasTopic, qos, payloadLen, expiryInterval, now);
    var taken := QuotaTaken(m.contexts, c, qos);
    InKept(limits, taken, m.dests, s, ds, c);
    AddKeepsQuota(m.contexts[c].msgsIn, qos);
  }

  lemma AddKeepsQuota(md: MsgData, qos: Qos)
    ensures forall m: ClientMsg :: AddMessage(md, m, qos).quota == md.quota
  {}

  lemma {:induction false} InKept(limits: Limits, cs: seq<Context>, dests: set<(Stored, nat)>, s: Stored, ds: seq<Flow.Delivery>, c: nat)
    requires c < |cs|
    ensures Flow.Handed(limits, cs, dests, s, ds).0[c].msgsIn == cs[c].msgsIn
    decreases |ds|
  {
    hide Flow.Admittance, AddMessage, Flow.Noted;
    if ds != [] {
      var r := Flow.HandedOne(limits, cs, dests, s, ds[0]);
      assert |r.0| == |cs| && r.0[c].msgsIn == cs[c].msgsIn;
      InKept(limits, r.0, r.1, s, ds[1..], c);
    }
  }
}
