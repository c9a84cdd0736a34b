/** Flow control and queue limits of the broker: which messages may be in flight, and which may wait. */
module BrokerWindow {
  import opened Basics
  import opened BrokerSpec
  import opened BrokerFlow
  import opened BrokerMachine
  import BrokerBooks

  // ---------- One message ----------

  /** The client takes part at all: it has an identifier and has not had the message. */
  predicate Addressed(limits: Limits, c: Context, s: Stored, retain: bool, dests: set<(Stored, nat)>) {
    c.hasId && (c.v5 || limits.allowDuplicates || retain || (s, c.id) !in dests)
  }

  /** What a message becomes for a client. */
  function Copy(c: Context, s: Stored, mid: Word16, qos: Qos, retain: bool, state: MsgState): ClientMsg {
    ClientMsg(s, mid, if qos > c.maximumQos then c.maximumQos else qos, retain, state, false)
  }

  /** What a client's outgoing lists become, by what is decided about the message. */
  lemma Lists(limits: Limits, cs: seq<Context>, dests: set<(Stored, nat)>, s: Stored, d: Delivery)
    requires d.ToClient? && d.client < |cs|
    ensures var c := cs[d.client];
            var r := HandedOne(limits, cs, dests, s, d).0[d.client].msgsOut;
            var a := Admittance(limits, c, Outgoing, d.qos, d.retain, (s, c.id) in dests);
            if a.Refuse? then r == c.msgsOut
            else if a.state.QueuedState? then
              r.inflight == c.msgsOut.inflight && r.queued == c.msgsOut.queued + [Copy(c, s, d.mid, d.qos, d.retain, QueuedState)]
            else r.queued == c.msgsOut.queued && r.inflight == c.msgsOut.inflight + [Copy(c, s, d.mid, d.qos, d.retain, a.state)]
  {
    hide Admittance, Delivered, Noted;
    var c := cs[d.client];
    var a := Admittance(limits, c, Outgoing, d.qos, d.retain, (s, c.id) in dests);
    if a.Admit? {
      OneMore(c, d.mid, d.qos, d.retain, s, a.state);
    }
  }

  lemma OneMore(c: Context, mid: Word16, qos: Qos, retain: bool, s: Stored, state: MsgState)
    ensures var m := Copy(c, s, mid, qos, retain, state);
            var r := Delivered(c, Outgoing, mid, qos, retain, s, state).msgsOut;
            if state.QueuedState? then r.inflight == c.msgsOut.inflight && r.queued == c.msgsOut.queued + [m]
            else r.queued == c.msgsOut.queued && r.inflight == c.msgsOut.inflight + [m]
  {}

  /** A message with a QoS above 0 joins the flight of a connected client exactly if the client's quota is
      not used up and the bytes in line stay below the limit, each as far as there is one. It is then ready
      to be published. Whatever is not in flight waits at the end of the queue or is dropped. */
  lemma JoinsFlightIff(limits: Limits, cs: seq<Context>, dests: set<(Stored, nat)>, s: Stored, d: Delivery)
    requires d.ToClient? && d.client < |cs| && d.qos > 0 && Addressed(limits, cs[d.client], s, d.retain, dests)
    ensures var c := cs[d.client];
            var md := c.msgsOut;
            var r := HandedOne(limits, cs, dests, s, d).0[d.client].msgsOut;
            if c.connected && (md.maximum == 0 || md.quota > 0) &&
               (limits.maxInflightBytes == 0 || md.bytes12 < limits.maxInflightBytes)
            then r.inflight == md.inflight + [Copy(c, s, d.mid, d.qos, d.retain, if d.qos == 1 then PublishQos1 else PublishQos2)] &&
                 r.queued == md.queued
            else r.inflight == md.inflight &&
                 (r.queued == md.queued || r.queued == md.queued + [Copy(c, s, d.mid, d.qos, d.retain, QueuedState)])
  {
    hide ReadyForQueue, HandedOne, Copy;
    Lists(limits, cs, dests, s, d);
  }

  /** And it waits exactly if the queue has room for it: in messages beyond those that may be in flight, and
      in bytes, each as far as there is a limit. The bytes beyond the inflight limit are an unsigned number. */
  lemma WaitsIff(limits: Limits, cs: seq<Context>, dests: set<(Stored, nat)>, s: Stored, d: Delivery)
    requires d.ToClient? && d.client < |cs| && d.qos > 0 && Addressed(limits, cs[d.client], s, d.retain, dests)
    ensures var c := cs[d.client];
            var md := c.msgsOut;
            var r := HandedOne(limits, cs, dests, s, d).0[d.client].msgsOut;
            var beyond := if c.connected then md.bytes12 - limits.maxInflightBytes else md.bytes12;
            r.inflight == md.inflight ==>
              (r.queued == md.queued + [Copy(c, s, d.mid, d.qos, d.retain, QueuedState)] <==>
               (limits.maxQueued == 0 || md.count12 - (if c.connected then md.maximum else 0) < limits.maxQueued) &&
               (limits.maxQueuedBytes == 0 || beyond % 0x1_0000_0000_0000_0000 < limits.maxQueuedBytes))
  {
    hide ReadyForFlight, HandedOne, Copy;
    Lists(limits, cs, dests, s, d);
  }

  /** A message with QoS 0 never waits for quota: it goes in flight to every connected client, and to no
      other. One that is not connected has it queued exactly if that is configured, or the client is a lazy
      bridge, and the queue has room for it, counted over all messages. */
  lemma Qos0NeedsConnection(limits: Limits, cs: seq<Context>, dests: set<(Stored, nat)>, s: Stored, d: Delivery)
    requires d.ToClient? && d.client < |cs| && d.qos == 0 && Addressed(limits, cs[d.client], s, d.retain, dests)
    ensures var c := cs[d.client];
            var md := c.msgsOut;
            var r := HandedOne(limits, cs, dests, s, d).0[d.client].msgsOut;
            if c.connected then r.inflight == md.inflight + [Copy(c, s, d.mid, 0, d.retain, PublishQos0)] && r.queued == md.queued
            else r.inflight == md.inflight &&
                 r.queued == md.queued +
                   if (limits.queueQos0 || c.lazyBridge) && (limits.maxQueued == 0 || md.count < limits.maxQueued) &&
                      (limits.maxQueuedBytes == 0 || md.bytes % 0x1_0000_0000_0000_0000 < limits.maxQueuedBytes)
                   then [Copy(c, s, d.mid, 0, d.retain, QueuedState)] else []
  {
    hide HandedOne, Copy;
    Lists(limits, cs, dests, s, d);
  }

  /** A client without an identifier, or that has had the message, gets nothing. */
  lemma NotAddressed(limits: Limits, cs: seq<Context>, dests: set<(Stored, nat)>, s: Stored, d: Delivery)
    requires d.ToClient? && d.client < |cs| && !Addressed(limits, cs[d.client], s, d.retain, dests)
    ensures HandedOne(limits, cs, dests, s, d) == (cs, dests)
  {
  }

  // ---------- Any number of messages ----------

  /** What one delivery does to the flight and the quota of a client. */
  lemma {:induction false} OneWithinQuota(limits: Limits, cs: seq<Context>, dests: set<(Stored, nat)>, s: Stored, d: Delivery, c: nat)
    requires c < |cs| && cs[c].msgsOut.maximum != 0
    ensures var a, b := cs[c].msgsOut, HandedOne(limits, cs, dests, s, d).0[c].msgsOut;
            b.maximum == a.maximum && a.inflight <= b.inflight &&
            Count12(b.inflight[|a.inflight|..]) + b.quota <= a.quota
  {
    hide ReadyForQueue, Count12, Bytes12, ListBytes;
    var a, b := cs[c].msgsOut, HandedOne(limits, cs, dests, s, d).0[c].msgsOut;
    NoneAbove0();
    if b.inflight == a.inflight {
      assert b.inflight[|a.inflight|..] == [];
    } else {
      var m := b.inflight[|a.inflight|];
      assert b.inflight[|a.inflight|..] == [m];
      SumsOne(m);
    }
  }

  /** Handing a message to a client touches no other client, and no client's incoming data. */
  lemma SameClients(limits: Limits, cs: seq<Context>, dests: set<(Stored, nat)>, s: Stored, d: Delivery)
    ensures var r := HandedOne(limits, cs, dests, s, d).0;
            |r| == |cs| && forall i :: 0 <= i < |cs| ==>
              r[i].msgsIn == cs[i].msgsIn && (d.Retain? || i != d.client ==> r[i] == cs[i])
  {
    hide Admittance;
  }

  lemma NoneAbove0()
    ensures Count12([]) == 0
  {}

  /** However many messages are handed out, those above QoS 0 that join a client's flight use up its quota:
      there are at most as many as it had. */
  lemma {:induction false} HandedWithinQuota(limits: Limits, cs: seq<Context>, dests: set<(Stored, nat)>, s: Stored, ds: seq<Delivery>, c: nat)
    requires c < |cs| && cs[c].msgsOut.maximum != 0
    ensures var a, b := cs[c].msgsOut, Handed(limits, cs, dests, s, ds).0[c].msgsOut;
            b.maximum == a.maximum && a.inflight <= b.inflight &&
            Count12(b.inflight[|a.inflight|..]) + b.quota <= a.quota
    decreases |ds|
  {
    hide HandedOne, Count12;
    var a := cs[c].msgsOut;
    if ds == [] {
      NoneAbove0();
      assert a.inflight[|a.inflight|..] == [];
    } else {
      var r := HandedOne(limits, cs, dests, s, ds[0]);
      SameClients(limits, cs, dests, s, ds[0]);
      OneWithinQuota(limits, cs, dests, s, ds[0], c);
      HandedWithinQuota(limits, r.0, r.1, s, ds[1..], c);
      var x, b := r.0[c].msgsOut, Handed(limits, cs, dests, s, ds).0[c].msgsOut;
      assert b.inflight[|a.inflight|..] == x.inflight[|a.inflight|..] + b.inflight[|x.inflight|..];
      Sums12Append(x.inflight[|a.inflight|..], b.inflight[|x.inflight|..]);
    }
  }

  /** What waits for a client that is not connected stays within the limit on messages, or where it was. */
  lemma {:induction false} OfflineQueueBounded(limits: Limits, cs: seq<Context>, dests: set<(Stored, nat)>, s: Stored, ds: seq<Delivery>, c: nat)
    requires c < |cs| && !cs[c].connected && limits.maxQueued != 0
    requires forall i :: 0 <= i < |ds| && ds[i].ToClient? ==> ds[i].qos > 0
    ensures var a, b := cs[c].msgsOut, Handed(limits, cs, dests, s, ds).0[c];
            !b.connected && b.msgsOut.inflight == a.inflight &&
            (b.msgsOut.count12 <= a.count12 || b.msgsOut.count12 <= limits.maxQueued)
    decreases |ds|
  {
    hide HandedOne, Count12;
    if ds != [] {
      var r := HandedOne(limits, cs, dests, s, ds[0]);
      SameClients(limits, cs, dests, s, ds[0]);
      OneOffline(limits, cs, dests, s, ds[0], c);
      assert forall i :: 0 <= i < |ds| - 1 ==> ds[1..][i] == ds[i + 1];
      OfflineQueueBounded(limits, r.0, r.1, s, ds[1..], c);
    }
  }

  lemma {:induction false} OneOffline(limits: Limits, cs: seq<Context>, dests: set<(Stored, nat)>, s: Stored, d: Delivery, c: nat)
    requires c < |cs| && !cs[c].connected && limits.maxQueued != 0 && (d.ToClient? ==> d.qos > 0)
    ensures var a, b := cs[c].msgsOut, HandedOne(limits, cs, dests, s, d).0[c];
            !b.connected && b.msgsOut.inflight == a.inflight &&
            (b.msgsOut.count12 == a.count12 || b.msgsOut.count12 == a.count12 + 1 <= limits.maxQueued)
  {
    hide Wrap;
  }

  // ---------- Reconnecting and writing ----------

  /** How many messages have QoS 0. */
  function Zeros(l: seq<ClientMsg>): nat {
    if l == [] then 0 else (if l[0].qos == 0 then 1 else 0) + Zeros(l[1..])
  }

  /** The queue loop of a reconnect takes no more messages in flight than there is quota and than there
      are messages with QoS 0 in the queue: each of those takes the head with it, whatever that is. */
  lemma {:induction false} RequeueBounded(limits: Limits, md: MsgData, i: nat)
    requires i <= |md.queued| && md.maximum != 0
    ensures |Requeue(limits, md, i).inflight| <= |md.inflight| + md.quota + Zeros(md.queued[i..])
    decreases |md.queued| - i
  {
    if i < |md.queued| {
      var m := md.queued[i];
      var counted := Count(md, m);
      assert md.queued[i..][0] == m && md.queued[i..][1..] == md.queued[i + 1..];
      if ReadyForFlight(limits, counted, m.qos) {
        var d := DequeueFirst(SetQueued(counted, i, PublishState(m.qos)));
        assert d.queued[i..] == md.queued[i + 1..];
        RequeueBounded(limits, d, i);
      } else {
        RequeueBounded(limits, counted, i + 1);
      }
    }
  }

  /** A message that waits, with the given QoS. */
  function Waiting(mid: Word16, qos: Qos): ClientMsg {
    ClientMsg(Stored(mid, 0, qos, mid, true, 0), mid, qos, false, QueuedState, false)
  }

  /** One message may be in flight, and two of QoS 1 and one of QoS 0 wait: a reconnect takes both of QoS 1
      in flight, the second of them not even ready to be published. */
  lemma ReconnectOvershoots()
    ensures var limits := Limits(0, 100, 0, false, false);
            var md := MsgData([], [Waiting(1, 1), Waiting(2, 1), Waiting(3, 0)], 0, 0, 0, 0, 1, 1);
            Requeue(limits, md, 0).inflight == [Waiting(1, 1).(state := PublishQos1), Waiting(2, 1)]
  {
    hide Count12, Bytes12, ListBytes;
    var limits := Limits(0, 100, 0, false, false);
    var a, b, z := Waiting(1, 1), Waiting(2, 1), Waiting(3, 0);
    var md := MsgData([], [a, b, z], 0, 0, 0, 0, 1, 1);
    var m1 := DequeueFirst(SetQueued(Count(md, a), 0, PublishQos1));
    assert m1.queued == [b, z] && m1.inflight == [a.(state := PublishQos1)];
    var m2 := Count(m1, b);
    var m3 := DequeueFirst(SetQueued(Count(m2, z), 1, PublishQos0));
    assert m3.queued == [z.(state := PublishQos0)] && m3.inflight == [a.(state := PublishQos1), b];
    assert Requeue(limits, md, 0) == Requeue(limits, m1, 0) == Requeue(limits, m2, 1) == Requeue(limits, m3, 1) == m3;
  }

  /** A write takes no more queued messages in flight than there is quota; if every packet could be sent,
      messages wait afterwards only without quota. */
  lemma WriteWithinQuota(c: Context, now: nat, out: nat -> SendResult)
    requires c.msgsOut.maximum != 0
    ensures var a, r := c.msgsOut, Write(c, now, out);
            var b := r.0.msgsOut;
            |b.queued| <= |a.queued| && b.queued == a.queued[|a.queued| - |b.queued|..] &&
            |a.queued| - |b.queued| + b.quota == a.quota &&
            (r.1 && b.queued != [] ==> b.quota == 0)
  {
    hide Relist, WriteIn, WriteOut, WriteQueueIn, Open, Write;
    var a := WriteIn(c.msgsIn.inflight, c.msgsIn.quota, c.msgsIn.maximum, now, out, 0);
    var b := WriteOut(c.msgsOut.inflight, now, out, a.sends);
    var md := Relist(c.msgsOut, b.l, c.msgsOut.queued);
    RelistKeepsQuota(c.msgsOut, b.l);
    OpenTakes(md, Admitted(md));
    WriteEnds(c, now, out);
  }

  /** Where the outgoing data of a client can stand after a write. */
  lemma WriteEnds(c: Context, now: nat, out: nat -> SendResult)
    ensures var a := WriteIn(c.msgsIn.inflight, c.msgsIn.quota, c.msgsIn.maximum, now, out, 0);
            var b := WriteOut(c.msgsOut.inflight, now, out, a.sends);
            var md := Relist(c.msgsOut, b.l, c.msgsOut.queued);
            var r := Write(c, now, out);
            if r.1 then r.0.msgsOut == Open(md, Admitted(md)) else r.0.msgsOut == c.msgsOut || r.0.msgsOut == md
  {
    hide Relist, WriteIn, WriteOut, WriteQueueIn, Open, Admitted;
  }

  lemma OpenTakes(md: MsgData, k: nat)
    requires k <= |md.queued| && k <= md.quota
    ensures Open(md, k).queued == md.queued[k..] && Open(md, k).quota == md.quota - k
  {}

  lemma RelistKeepsQuota(md: MsgData, l: seq<ClientMsg>)
    ensures var r := Relist(md, l, md.queued); r.quota == md.quota && r.maximum == md.maximum && r.queued == md.queued
  {}

  // ---------- The course of a delivery ----------

  /** When every packet can be sent and nothing has expired, a write moves each message in flight on: one
      with QoS 1 waits for its PUBACK, one with QoS 2 for its PUBREC, and after a PUBREL for its PUBCOMP;
      the next PUBLISH of those published would carry the dup flag. What was waiting goes on waiting. */
  lemma {:induction false} WriteMovesOn(l: seq<ClientMsg>, now: nat, out: nat -> SendResult, k: nat, i: nat)
    requires i < |l| && (forall n :: n >= k ==> out(n).Sent?)
    requires forall j :: 0 <= j < |l| ==> l[j].store.expiryTime == 0 || now <= l[j].store.expiryTime
    ensures var r, m := WriteOut(l, now, out, k), l[i];
            r.ok &&
            match m.state
            case PublishQos0 => true
            case PublishQos1 => m.(state := WaitForPuback, dup := true) in r.l
            case PublishQos2 => m.(state := WaitForPubrec, dup := true) in r.l
            case ResendPubrel => m.(state := WaitForPubcomp) in r.l
            case _ => m in r.l
  {
    var m, t := l[0], l[1..];
    assert !Expired(m, now);
    assert forall j :: 0 <= j < |t| ==> t[j] == l[j + 1];
    var next := if ToPublish(m) || m.state.ResendPubrel? then k + 1 else k;
    if i > 0 {
      WriteMovesOn(t, now, out, next, i - 1);
    } else {
      AllSentIsOk(t, now, out, next);
    }
  }

  lemma {:induction false} AllSentIsOk(l: seq<ClientMsg>, now: nat, out: nat -> SendResult, k: nat)
    requires forall n :: n >= k ==> out(n).Sent?
    ensures WriteOut(l, now, out, k).ok
  {
    if l != [] {
      AllSentIsOk(l[1..], now, out, k);
      AllSentIsOk(l[1..], now, out, k + 1);
    }
  }

  /** A PUBACK is accepted exactly if every message in flight that it names has QoS 1, a PUBCOMP exactly
      if all of them have QoS 2 and got their PUBREC before. Then none of them is in flight any more, the
      others are in line as before, and messages wait only if the maximum is reached. */
  lemma {:induction false} AckAcceptedIff(ctx: Context, mid: Word16, comp: bool)
    ensures var l, md := ctx.msgsOut.inflight, ctx.msgsOut;
            var r := AckOf(ctx, mid, comp);
            (r.1 == Success <==>
              ctx.active && mid != 0 &&
              forall i :: 0 <= i < |l| && l[i].mid == mid ==> if comp then l[i].qos == 2 && l[i].state == WaitForPubcomp else l[i].qos == 1) &&
            (r.1 == Success ==>
              Lineup(r.0) == BareAll(Others(l, mid) + md.queued) &&
              (r.0.queued != [] ==> md.maximum != 0 && |r.0.inflight| >= md.maximum))
  {
    hide DriftOf, Lineup, BareAll, Others;
    var md := Raised(ctx.msgsOut);
    AckedRemovesNamed(md.inflight, mid, WaitForPubcomp, if comp then 2 else 1);
    if AckOf(ctx, mid, comp).1 == Success {
      AcceptedAckFillsWindow(md, mid, WaitForPubcomp, if comp then 2 else 1);
    }
  }

  /** An acknowledgement gives back one of the send quota, up to the maximum, before it is looked at; each
      message that it lets in from the queue takes one of it, as far as there is any. */
  lemma AckQuota(ctx: Context, mid: Word16, comp: bool)
    requires ctx.active
    ensures var md, r := ctx.msgsOut, AckOf(ctx, mid, comp).0;
            var given := if md.quota < md.maximum then md.quota + 1 else md.quota;
            var taken := |md.queued| - |r.queued|;
            0 <= taken && r.queued == md.queued[taken..] && r.quota == if given > taken then given - taken else 0
  {
    hide Count12, Bytes12, ListBytes, Acked, Published;
  }

  /** A PUBREC that reports no failure is accepted exactly if the first message in flight that it names
      has QoS 2: only that message changes, and a PUBCOMP for it is due. One that reports a failure is
      accepted exactly if all messages it names have QoS 2 and wait for it; they leave. */
  lemma {:induction false} PubrecAcceptedIff(ctx: Context, mid: Word16, reason: Byte, i: nat)
    requires var l := ctx.msgsOut.inflight; i < |l| && l[i].mid == mid && forall k :: 0 <= k < i ==> l[k].mid != mid
    ensures var l := ctx.msgsOut.inflight;
            var r := PubrecOf(ctx, mid, reason);
            if reason < 0x80 then
              (r.1 == Success <==> ctx.active && mid != 0 && l[i].qos == 2) &&
              r.0 == if r.1 == Success then ctx.msgsOut.(inflight := l[i := l[i].(state := WaitForPubcomp)]) else ctx.msgsOut
            else
              (r.1 == Success <==>
                ctx.active && mid != 0 && forall k :: 0 <= k < |l| && l[k].mid == mid ==> l[k].qos == 2 && l[k].state == WaitForPubrec) &&
              (r.1 == Success ==> Lineup(r.0) == BareAll(Others(l, mid) + ctx.msgsOut.queued))
  {
    hide DriftOf, Lineup, BareAll, Others;
    AckedRemovesNamed(ctx.msgsOut.inflight, mid, WaitForPubrec, 2);
    if reason >= 0x80 && PubrecOf(ctx, mid, reason).1 == Success {
      AcceptedAckFillsWindow(ctx.msgsOut, mid, WaitForPubrec, 2);
    }
  }

  /** A message with QoS 2 that a client publishes waits for its PUBREL in flight exactly if the receive
      quota and the bytes allow it; otherwise it is queued or dropped. */
  lemma ReceivedInFlightIff(limits: Limits, m: Machine, c: nat, mid: Word16, retain: bool, s: Stored)
    requires c < |m.contexts| && m.contexts[c].hasId
    ensures var x := m.contexts[c];
            var md := x.msgsIn;
            var r := InsertOf(limits, m, c, Incoming, mid, 2, retain, s).contexts[c].msgsIn;
            if x.connected && (md.maximum == 0 || md.quota > 0) &&
               (limits.maxInflightBytes == 0 || md.bytes12 < limits.maxInflightBytes)
            then r.inflight == md.inflight + [Copy(x, s, mid, 2, retain, WaitForPubrel)] && r.queued == md.queued
            else r.inflight == md.inflight &&
                 (r.queued == md.queued || r.queued == md.queued + [Copy(x, s, mid, 2, retain, QueuedState)])
  {
    hide ReadyForQueue, Noted;
  }

  // ---------- The loops over the queues ----------

  /** How many messages have QoS 2. */
  function Twos(l: seq<ClientMsg>): nat {
    if l == [] then 0 else (if l[0].qos == 2 then 1 else 0) + Twos(l[1..])
  }

  /** Dequeuing behind a mark: the messages that are still to be looked at stay the same. */
  lemma RestAfterDequeue(md: MsgData, i: nat, state: MsgState)
    requires i < |md.queued|
    ensures var d := DequeueFirst(SetQueued(md, i, state));
            |d.queued| == |md.queued| - 1 && d.queued[i..] == md.queued[i + 1..] && d.maximum == md.maximum &&
            d.quota == (if md.quota > 0 then md.quota - 1 else 0) && |d.inflight| == |md.inflight| + 1
  {}

  /** After a PUBREL as many messages are looked at as fit beside those that were in flight, in order, and for
      each of them with QoS 2 one moves from the queue in flight. */
  lemma {:induction false} ReleaseQueueMoves(md: MsgData, i: nat, index: nat)
    requires i <= |md.queued|
    ensures var left := if md.maximum == 0 then |md.queued| - i else if index >= md.maximum then 0 else md.maximum - index;
            var looked := md.queued[i..][..if left <= |md.queued| - i then left else |md.queued| - i];
            var r := ReleaseQueue(md, i, index);
            |r.queued| == |md.queued| - Twos(looked) && |r.inflight| == |md.inflight| + Twos(looked)
    decreases |md.queued| - i
  {
    var left := if md.maximum == 0 then |md.queued| - i else if index >= md.maximum then 0 else md.maximum - index;
    var n := if left <= |md.queued| - i then left else |md.queued| - i;
    var looked := md.queued[i..][..n];
    if n > 0 {
      assert looked[0] == md.queued[i] && looked[1..] == md.queued[i + 1..][..n - 1];
      if md.queued[i].qos == 2 {
        RestAfterDequeue(md, i, WaitForPubrel);
        ReleaseQueueMoves(DequeueFirst(SetQueued(md, i, WaitForPubrel)), i, index + 1);
      } else {
        ReleaseQueueMoves(md, i + 1, index + 1);
      }
    }
  }

  /** When every PUBREC can be sent, a write moves an incoming message in flight for each queued one with
      QoS 2, as many as there is receive quota; without an outgoing maximum the quota does not matter. */
  lemma {:induction false} WriteQueueInMoves(md: MsgData, outMaximum: nat, i: nat, out: nat -> SendResult, k: nat)
    requires i <= |md.queued| && forall n :: n >= k ==> out(n).Sent?
    ensures var twos := Twos(md.queued[i..]);
            var moved := if outMaximum == 0 || twos <= md.quota then twos else md.quota;
            var r := WriteQueueIn(md, outMaximum, i, out, k);
            r.1 && |r.0.queued| == |md.queued| - moved && |r.0.inflight| == |md.inflight| + moved &&
            r.0.quota == if md.quota > moved then md.quota - moved else 0
    decreases |md.queued| - i
  {
    if i < |md.queued| && !(outMaximum != 0 && md.quota == 0) {
      assert md.queued[i..][0] == md.queued[i] && md.queued[i..][1..] == md.queued[i + 1..];
      if md.queued[i].qos == 2 {
        RestAfterDequeue(md, i, WaitForPubrel);
        WriteQueueInMoves(DequeueFirst(SetQueued(md, i, WaitForPubrel)), outMaximum, i, out, k + 1);
      } else {
        WriteQueueInMoves(md, outMaximum, i + 1, out, k);
      }
    }
  }

  // ---------- The loops over what is in flight ----------

  /** The messages for which a write has a packet to send. */
  function ToSend(l: seq<ClientMsg>, now: nat): nat {
    if l == [] then 0
    else (if !Expired(l[0], now) && l[0].state in {PublishQos0, PublishQos1, PublishQos2, ResendPubrel} then 1 else 0) + ToSend(l[1..], now)
  }

  /** A write that succeeds has sent a packet for each message that had one, and one that fails stopped at
      the first packet that could not be sent; a PUBLISH that is too large is passed over, a PUBREL is not. */
  lemma {:induction false} WriteOutSends(l: seq<ClientMsg>, now: nat, out: nat -> SendResult, k: nat)
    ensures var r := WriteOut(l, now, out, k);
            r.sends >= k && (forall n :: k <= n < r.sends - 1 ==> !out(n).Failed?) &&
            (if r.ok then r.sends == k + ToSend(l, now) && (r.sends > k ==> !out(r.sends - 1).Failed?)
             else r.sends > k && !out(r.sends - 1).Sent? && r.l != [])
  {
    if l != [] {
      var m, t := l[0], l[1..];
      if !Expired(m, now) && (ToPublish(m) || m.state.ResendPubrel?) {
        WriteOutSends(t, now, out, k + 1);
      } else {
        WriteOutSends(t, now, out, k);
      }
    }
  }

  /** A PUBREL that is too large ends the write at its message. */
  lemma OversizePubrelStops(l: seq<ClientMsg>, now: nat, out: nat -> SendResult, k: nat)
    requires l != [] && l[0].state == ResendPubrel && !Expired(l[0], now) && !out(k).Sent?
    ensures !WriteOut(l, now, out, k).ok && WriteOut(l, now, out, k).l == l
  {}

  /** When every packet can be sent and nothing has expired, an incoming message whose PUBREC is due, or
      whose PUBCOMP, waits for its PUBREL afterwards; all others stay as they are. */
  lemma {:induction false} WriteInMovesOn(l: seq<ClientMsg>, quota: nat, maximum: nat, now: nat, out: nat -> SendResult, k: nat, i: nat)
    requires i < |l| && (forall n :: n >= k ==> out(n).Sent?)
    requires forall j :: 0 <= j < |l| ==> l[j].store.expiryTime == 0 || now <= l[j].store.expiryTime
    ensures var r, m := WriteIn(l, quota, maximum, now, out, k), l[i];
            r.ok && |r.l| == |l| &&
            r.l[i] == if m.state in {SendPubrec, ResendPubcomp} then m.(state := WaitForPubrel) else m
  {
    var m, t := l[0], l[1..];
    assert !Expired(m, now);
    assert forall j :: 0 <= j < |t| ==> t[j] == l[j + 1];
    var sends := m.state.SendPubrec? || m.state.ResendPubcomp?;
    var q := if m.state.ResendPubcomp? && quota < maximum then quota + 1 else quota;
    if i > 0 {
      WriteInMovesOn(t, q, maximum, now, out, if sends then k + 1 else k, i - 1);
    } else {
      AllInSent(t, q, maximum, now, out, if sends then k + 1 else k);
    }
  }

  lemma {:induction false} AllInSent(l: seq<ClientMsg>, quota: nat, maximum: nat, now: nat, out: nat -> SendResult, k: nat)
    requires forall n :: n >= k ==> out(n).Sent?
    requires forall j :: 0 <= j < |l| ==> l[j].store.expiryTime == 0 || now <= l[j].store.expiryTime
    ensures WriteIn(l, quota, maximum, now, out, k).ok && |WriteIn(l, quota, maximum, now, out, k).l| == |l|
  {
    if l != [] {
      var m, t := l[0], l[1..];
      assert !Expired(m, now);
      assert forall j :: 0 <= j < |t| ==> t[j] == l[j + 1];
      var q := if m.state.ResendPubcomp? && quota < maximum then quota + 1 else quota;
      AllInSent(t, q, maximum, now, out, if m.state.SendPubrec? || m.state.ResendPubcomp? then k + 1 else k);
    }
  }

  // ---------- The window after a reconnect ----------

  /** A reconnect sets the send quota to its maximum without regard to what is still in flight, and takes
      that from the receive quota instead: with nothing queued, flight and send quota stay within the
      maximum exactly if nothing with a QoS above 0 was in flight. */
  lemma ReconnectKeepsWindowIff(limits: Limits, c: Context)
    requires c.msgsOut.queued == []
    ensures var a, r := c.msgsOut, ResetOutgoing(limits, c);
            var b := r.msgsOut;
            b.queued == [] && |b.inflight| == |a.inflight| && b.quota == a.maximum && b.maximum == a.maximum &&
            (Count12(b.inflight) + b.quota <= b.maximum <==> Count12(a.inflight) == 0) &&
            r.msgsIn.quota == (if c.msgsIn.quota > Count12(a.inflight) then c.msgsIn.quota - Count12(a.inflight) else 0)
  {
    hide Count12, Bytes12, ListBytes;
    ResetAllBare(c.msgsOut.inflight);
    BareSums(ResetAll(c.msgsOut.inflight), c.msgsOut.inflight);
  }

  /** A session that has messages passes whole: the client that is left has none, the new one has all of the
      outgoing ones in line, and of the incoming ones in flight those with QoS 2; its counters are exact,
      and what waited for its PUBCOMP goes on with the PUBREL. */
  lemma SessionPasses(limits: Limits, cs: seq<Context>, session: BrokerBooks.Session, f: nat)
    requires f < |cs| && !BrokerBooks.HasNoMessages(cs[f])
    ensures var r, found := ResumeOf(limits, cs, session, f), cs[f];
            |r| == |cs| + 1 && BrokerBooks.HasNoMessages(r[f]) && (forall i :: 0 <= i < |cs| && i != f ==> r[i] == cs[i]) &&
            var c := r[|cs|];
            c.id == session.id && c.connected && CountersOk(c.msgsIn, true) && CountersOk(c.msgsOut, true) &&
            Lineup(c.msgsOut) == Lineup(found.msgsOut) &&
            Lineup(c.msgsIn) == BareAll(Qos2Only(found.msgsIn.inflight) + found.msgsIn.queued) &&
            forall i :: 0 <= i < |found.msgsOut.inflight| && found.msgsOut.inflight[i].qos == 2 && found.msgsOut.inflight[i].state.WaitForPubcomp?
                        ==> i < |c.msgsOut.inflight| && c.msgsOut.inflight[i] == found.msgsOut.inflight[i].(state := ResendPubrel)
  {
    hide CountersOk, Lineup, BareAll, Qos2Only, Requeue, ResetAll, Tally;
    var found := cs[f];
    var c := BrokerBooks.Fresh(session).(msgsIn := found.msgsIn, msgsOut := found.msgsOut);
    ResetOutgoingRestores(limits, c);
    var d := ResetOutgoing(limits, c);
    ResetIncomingRestores(limits, d);
  }
}
