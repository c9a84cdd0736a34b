/** The handlers of the client library (`messages_mosq.c` and the `handle_*.c` files behind their
    decoding) on an object whose lists, quotas and states they update in place. Each of them is
    proved equal to the step of the state machine in `ClientSpec`, whose runs the other modules on
    the client reason about. */
module Client {
  import opened Basics
  import opened ClientSpec

  class Mosquitto {
    var v5: bool
    var sockOpen: bool
    var active: bool
    var out: seq<OutMsg>
    var outQuota: nat
    var outMax: nat
    var outLen: int
    var inc: seq<InMsg>
    var inQuota: nat
    var inMax: nat
    var inLen: int
    var lastMid: Word16
    var plan: seq<bool>
    /** What the sender was given, and the books about messages: model-only. */
    ghost var handed: seq<Sent>
    var accepted: nat
    ghost var removed: set<nat>
    var received: nat
    ghost var delivered: seq<nat>
    ghost var dropped: seq<nat>

    ghost function Abs(): State
      reads this
    {
      State(v5, sockOpen, active, out, outQuota, outMax, outLen, inc, inQuota, inMax, inLen,
            lastMid, plan, handed, accepted, removed, received, delivered, dropped)
    }

    constructor (v5: bool, outMax: nat, inMax: nat, plan: seq<bool>)
      ensures Abs() == Fresh(v5, outMax, inMax, plan)
    {
      this.v5, sockOpen, active := v5, false, false;
      out, outQuota, this.outMax, outLen := [], outMax, outMax, 0;
      inc, inQuota, this.inMax, inLen := [], inMax, inMax, 0;
      lastMid, this.plan, handed := 0, plan, [];
      accepted, removed, received, delivered, dropped := 0, {}, 0, [], [];
    }

    // ---------- util_mosq.c ----------

    method MidGenerate() returns (mid: Word16)
      modifies this`lastMid
      ensures mid == lastMid == NextMid(old(lastMid))
    {
      lastMid := (lastMid + 1) % 0x1_0000;
      if lastMid == 0 { lastMid := lastMid + 1; }
      mid := lastMid;
    }

    method IncrementSendQuota()
      modifies this`outQuota
      ensures Abs() == IncSendQuota(old(Abs()))
    {
      if outQuota < outMax { outQuota := outQuota + 1; }
    }

    method DecrementSendQuota()
      modifies this`outQuota
      ensures outQuota == if old(outQuota) > 0 then old(outQuota) - 1 else 0
    {
      if outQuota > 0 { outQuota := outQuota - 1; }
    }

    method IncrementReceiveQuota()
      modifies this`inQuota
      ensures Abs() == IncReceiveQuota(old(Abs()))
    {
      if inQuota < inMax { inQuota := inQuota + 1; }
    }

    method DecrementReceiveQuota()
      modifies this`inQuota
      ensures Abs() == DecReceiveQuota(old(Abs()))
    {
      if inQuota > 0 { inQuota := inQuota - 1; }
    }

    /** The send functions, up to what the socket and the plan make of the packet. */
    method Send(p: Sent) returns (rc: Rc)
      modifies this`handed, this`plan
      ensures (Abs(), rc) == Hand(old(Abs()), p)
    {
      if !sockOpen { return NoConn; }
      handed := handed + [p];
      if plan == [] { return Success; }
      rc := if plan[0] then Success else Errno;
      plan := plan[1..];
    }

    // ---------- messages_mosq.c ----------

    method ReleaseToInflight() returns (rc: Rc)
      modifies this`out, this`outQuota, this`handed, this`plan
      ensures Abs() == Release(old(Abs()), 0)
    {
      hide Hand, Release;
      var i := 0;
      while i < |out|
        invariant 0 <= i <= |out|
        invariant Release(old(Abs()), 0) == Release(Abs(), i)
      {
        ReleaseStep(Abs(), i);
        if outQuota > 0 {
          if out[i].state.Invalid? {
            var m := out[i];
            out := out[i := m.(state := if m.qos == 1 then WaitForPuback else WaitForPubrec)];
            ghost var marked := Abs();
            rc := Send(SentPublish(m.uid, m.mid, m.qos, m.dup));
            HandOnly(marked, SentPublish(m.uid, m.mid, m.qos, m.dup));
            if rc != Success { return rc; }
            DecrementSendQuota();
          }
        } else {
          return Success;
        }
        i := i + 1;
      }
      ReleaseEnd(Abs());
      return Success;
    }

    /** `message__remove` for the outgoing list. */
    method MessageRemoveOut(mid: Word16, qos: nat) returns (rc: Rc)
      modifies this`out, this`outLen, this`removed
      ensures (Abs(), rc) == RemoveOut(old(Abs()), mid, qos)
    {
      var i := 0;
      while i < |out|
        invariant 0 <= i <= |out| && unchanged(this)
        invariant forall k :: 0 <= k < i ==> out[k].mid != mid
      {
        if out[i].mid == mid {
          if out[i].qos != qos { return Protocol; }
          removed := removed + {out[i].uid};
          out := out[..i] + out[i + 1..];
          outLen := outLen - 1;
          return Success;
        }
        i := i + 1;
      }
      return NotFound;
    }

    /** `message__remove` for the incoming list, always with QoS 2. */
    method MessageRemoveIn(mid: Word16) returns (rc: Rc, message: Option<InMsg>)
      modifies this`inc, this`inLen
      ensures (Abs(), message, rc) == RemoveIn(old(Abs()), mid)
    {
      var i := 0;
      while i < |inc|
        invariant 0 <= i <= |inc| && unchanged(this)
        invariant forall k :: 0 <= k < i ==> inc[k].mid != mid
      {
        if inc[i].mid == mid {
          if inc[i].qos != 2 { return Protocol, None; }
          message := Some(inc[i]);
          inc := inc[..i] + inc[i + 1..];
          inLen := inLen - 1;
          return Success, message;
        }
        i := i + 1;
      }
      return NotFound, None;
    }

    method MessageOutUpdate(mid: Word16, state: MsgState, qos: nat) returns (rc: Rc)
      modifies this`out
      ensures (Abs(), rc) == UpdateOut(old(Abs()), mid, state, qos)
    {
      var i := 0;
      while i < |out|
        invariant 0 <= i <= |out| && unchanged(this)
        invariant forall k :: 0 <= k < i ==> out[k].mid != mid
      {
        if out[i].mid == mid {
          if out[i].qos != qos { return Protocol; }
          out := out[i := out[i].(state := state)];
          return Success;
        }
        i := i + 1;
      }
      return NotFound;
    }

    method MessageReconnectReset()
      modifies this`inQuota, this`inLen, this`inc, this`outQuota, this`outLen, this`out
      ensures Abs() == Reset(old(Abs()))
    {
      hide ClientSpec.ResetIncoming, ClientSpec.ResetOutgoing;
      ResetIncomingList();
      ResetOutgoingList();
    }

    method ResetIncomingList()
      modifies this`inQuota, this`inLen, this`inc
      ensures Abs() == ClientSpec.ResetIncoming(old(Abs()))
    {
      hide ResetInOne;
      inQuota := inMax;
      inLen := 0;
      ghost var s0 := Abs();
      var i := 0;
      while i < |inc|
        invariant 0 <= i <= |inc|
        invariant ResetIn(s0, 0) == ResetIn(Abs(), i)
        decreases |inc| - i
      {
        var stays := inc[i].qos == 2;
        ResetIncomingOne(i);
        if stays { i := i + 1; }
      }
    }

    method ResetIncomingOne(i: nat)
      requires i < |inc|
      modifies this`inQuota, this`inLen, this`inc
      ensures Abs() == ResetInOne(old(Abs()), i)
    {
      inLen := inLen + 1;
      if inc[i].qos != 2 {
        inc := inc[..i] + inc[i + 1..];
      } else {
        DecrementReceiveQuota();
      }
    }

    method ResetOutgoingList()
      modifies this`outQuota, this`outLen, this`out
      ensures Abs() == ClientSpec.ResetOutgoing(old(Abs()))
    {
      hide ResetOutOne;
      outQuota := outMax;
      outLen := 0;
      ghost var s1 := Abs();
      var i := 0;
      while i < |out|
        invariant 0 <= i <= |out|
        invariant ResetOut(s1, 0) == ResetOut(Abs(), i)
      {
        ResetOutgoingOne(i);
        i := i + 1;
      }
    }

    method ResetOutgoingOne(i: nat)
      requires i < |out|
      modifies this`outQuota, this`outLen, this`out
      ensures Abs() == ResetOutOne(old(Abs()), i)
    {
      hide ResetState;
      outLen := outLen + 1;
      var m := out[i];
      if outQuota != 0 {
        DecrementSendQuota();
        out := out[i := m.(state := ResetState(m))];
      } else {
        out := out[i := m.(state := Invalid)];
      }
    }

    method MessageRetryCheck()
      modifies this`out, this`handed, this`plan
      ensures Abs() == Retry(old(Abs()), 0)
    {
      hide RetryOne;
      var i := 0;
      while i < |out|
        invariant 0 <= i <= |out|
        invariant Retry(old(Abs()), 0) == Retry(Abs(), i)
      {
        RetryMessage(i);
        i := i + 1;
      }
    }

    method RetryMessage(i: nat)
      requires i < |out|
      modifies this`out, this`handed, this`plan
      ensures Abs() == RetryOne(old(Abs()), i)
    {
      hide Hand;
      var m := out[i];
      if m.state.PublishQos1? || m.state.PublishQos2? {
        out := out[i := m.(dup := true)];
        var rc := Send(SentPublish(m.uid, m.mid, m.qos, true));
      } else if m.state.ResendPubrel? || m.state.WaitForPubcomp? {
        out := out[i := m.(dup := true)];
        var rc := Send(SentPubrel(m.mid));
      }
    }

    // ---------- actions.c and the handlers ----------

    /** `mosquitto_publish_v5` for QoS 1 and 2, and `message__queue`. */
    method PublishMessage(qos: Qos12)
      modifies this
      ensures Abs() == DoPublish(old(Abs()), qos)
    {
      hide Release;
      var mid := MidGenerate();
      out := out + [OutMsg(accepted, mid, qos, Invalid, false)];
      outLen := outLen + 1;
      accepted := accepted + 1;
      assert Abs() == Queued(old(Abs()), qos);
      var rc := ReleaseToInflight();
    }

    method PublishAtOnce() returns (rc: Rc)
      modifies this
      ensures (Abs(), rc) == DoPublishQos0(old(Abs()))
    {
      hide Hand;
      var mid := MidGenerate();
      rc := Send(SentQos0(mid));
    }

    /** `mosquitto_disconnect_v5` */
    method DisconnectClient() returns (rc: Rc)
      modifies this
      ensures (Abs(), rc) == DoDisconnect(old(Abs()))
    {
      hide Hand;
      active := false;
      rc := Send(SentDisconnect);
    }

    method HandlePubackcomp(mid: Word16, qos: Qos12) returns (rc: Rc)
      modifies this
      ensures (Abs(), rc) == DoAck(old(Abs()), mid, qos)
    {
      hide Release, RemoveOut;
      if !active { return Protocol; }
      IncrementSendQuota();
      if mid == 0 { return Protocol; }
      rc := MessageRemoveOut(mid, qos);
      if rc != Success { return rc; }
      rc := ReleaseToInflight();
      return Success;
    }

    method HandlePubrec(mid: Word16, reasonCode: Byte) returns (rc: Rc)
      modifies this
      ensures (Abs(), rc) == DoPubrec(old(Abs()), mid, reasonCode)
    {
      hide Release, RemoveOut, UpdateOut, Hand;
      if !active { return Protocol; }
      if mid == 0 { return Protocol; }
      if reasonCode < 0x80 || !v5 {
        rc := MessageOutUpdate(mid, WaitForPubcomp, 2);
      } else {
        rc := MessageRemoveOut(mid, 2);
        IncrementSendQuota();
        rc := ReleaseToInflight();
        return Success;
      }
      if rc != NotFound && rc != Success { return rc; }
      rc := Send(SentPubrel(mid));
    }

    /** The switch of `handle__publish`; the application's callback for QoS 0 and 1 is left out. */
    method HandlePublish(qos: nat, mid: Word16) returns (rc: Rc)
      modifies this
      ensures (Abs(), rc) == DoIncoming(old(Abs()), qos, mid)
      ensures old(active) && old(sockOpen) && mid != 0 && !(v5 && old(inQuota) == 0) ==>
                (qos == 1 ==> handed == old(handed) + [SentPuback(mid)]) &&
                (qos == 2 ==> handed == old(handed) + [SentPubrec(mid)])
    {
      hide Hand;
      HandOnly(DecReceiveQuota(Abs()), SentPubrec(mid));
      HandOnly(IncReceiveQuota(DecReceiveQuota(Abs())), SentPuback(mid));
      if !active { return Protocol; }
      if qos > 0 {
        if v5 {
          if inQuota == 0 { return Protocol; }
        }
        if mid == 0 { return Protocol; }
      }
      match qos {
        case 0 => return Success;
        case 1 =>
          DecrementReceiveQuota();
          IncrementReceiveQuota();
          rc := Send(SentPuback(mid));
        case 2 =>
          DecrementReceiveQuota();
          rc := Send(SentPubrec(mid));
          inc := inc + [InMsg(received, mid, 2)];
          inLen := inLen + 1;
          received := received + 1;
        case _ => return Protocol;
      }
    }

    method HandlePubrel(mid: Word16) returns (rc: Rc)
      modifies this
      ensures (Abs(), rc) == DoPubrel(old(Abs()), mid)
      ensures old(active) && old(sockOpen) && mid != 0 ==> handed == old(handed) + [SentPubcomp(mid)]
    {
      hide Hand, RemoveIn;
      HandOnly(IncReceiveQuota(Abs()), SentPubcomp(mid));
      RemovedFound(IncReceiveQuota(Abs()), mid);
      RemovedFound(Hand(IncReceiveQuota(Abs()), SentPubcomp(mid)).0, mid);
      if !active { return Protocol; }
      if mid == 0 { return Protocol; }
      IncrementReceiveQuota();
      rc := Send(SentPubcomp(mid));
      if rc != Success {
        Discard(mid);
        return rc;
      }
      rc := Deliver(mid);
    }

    /** A message whose PUBCOMP could not be sent is removed without being delivered. */
    method Discard(mid: Word16)
      modifies this
      ensures var (s, m, _) := RemoveIn(old(Abs()), mid);
              Abs() == if m.Some? then s.(dropped := s.dropped + [m.value.uid]) else s
    {
      hide RemoveIn;
      var _, message := MessageRemoveIn(mid);
      if message.Some? { dropped := dropped + [message.value.uid]; }
    }

    method Deliver(mid: Word16) returns (rc: Rc)
      modifies this
      ensures var (s, m, rc2) := RemoveIn(old(Abs()), mid);
              rc == rc2 && (rc == Success ==> m.Some?) &&
              Abs() == if rc == Success then s.(delivered := s.delivered + [m.value.uid]) else s
    {
      hide RemoveIn;
      RemovedFound(Abs(), mid);
      var message;
      rc, message := MessageRemoveIn(mid);
      if rc == Success { delivered := delivered + [message.value.uid]; }
    }

    method HandleConnack(reasonCode: Byte, receiveMaximum: Option<Word16>) returns (rc: Rc)
      modifies this
      ensures (Abs(), rc) == DoConnack(old(Abs()), reasonCode, receiveMaximum)
    {
      hide Retry;
      if v5 && receiveMaximum.Some? { outMax := receiveMaximum.value; }
      outQuota := outMax;
      if reasonCode == 0 {
        active := true;
        MessageRetryCheck();
        return Success;
      } else if reasonCode <= 5 {
        return ConnRefused;
      } else {
        return Protocol;
      }
    }

    /** `mosquitto__reconnect`; `ok` says whether the new socket could be connected and the CONNECT be
        handed to it: if not, the socket is closed again. */
    method ReconnectSocket(ok: bool) returns (rc: Rc)
      modifies this
      ensures (Abs(), rc) == Step(old(Abs()), Reconnect(ok))
    {
      hide Reset;
      MessageReconnectReset();
      sockOpen := ok;
      active := false;
      return if ok then Success else Errno;
    }

    /** One event through the handler it belongs to. */
    method Handle(e: Event) returns (rc: Rc)
      modifies this
      ensures (Abs(), rc) == Step(old(Abs()), e)
    {
      hide DoPublish, DoPublishQos0, DoDisconnect, DoAck, DoPubrec, DoIncoming, DoPubrel, DoConnack, Reset;
      if !sockOpen && !e.Publish? && !e.PublishQos0? && !e.Disconnect? && !e.SocketLoss? && !e.Reconnect? { return NoConn; }
      match e {
        case Publish(qos) =>
          PublishMessage(qos);
          rc := Success;
        case PublishQos0 => rc := PublishAtOnce();
        case Disconnect => rc := DisconnectClient();
        case SocketLoss =>
          sockOpen := false;
          rc := Success;
        case Reconnect(ok) => rc := ReconnectSocket(ok);
        case Ack(mid, qos) => rc := HandlePubackcomp(mid, qos);
        case Pubrec(mid, reason) => rc := HandlePubrec(mid, reason);
        case Incoming(qos, mid) => rc := HandlePublish(qos, mid);
        case Pubrel(mid) => rc := HandlePubrel(mid);
        case Connack(reason, max) => rc := HandleConnack(reason, max);
      }
    }
  }

  /** A client that handles events one after the other runs like the state machine. */
  method HandleAll(client: Mosquitto, es: seq<Event>)
    modifies client
    ensures client.Abs() == RunEvents(old(client.Abs()), es)
  {
    hide Step;
    assert es[0..] == es;
    for i := 0 to |es|
      invariant RunEvents(old(client.Abs()), es) == RunEvents(client.Abs(), es[i..])
    {
      assert es[i..][0] == es[i] && es[i..][1..] == es[i + 1..];
      var rc := client.Handle(es[i]);
    }
  }

  lemma ReleaseStep(s: State, i: nat)
    requires i < |s.out|
    ensures Release(s, i) ==
      if s.outQuota == 0 then s
      else if s.out[i].state.Invalid? then
        var m := s.out[i];
        var (s1, rc) := Hand(s.(out := s.out[i := Released(m)]), SentPublish(m.uid, m.mid, m.qos, m.dup));
        if rc != Success then s1 else Release(s1.(outQuota := s1.outQuota - 1), i + 1)
      else Release(s, i + 1)
  {
    hide Hand;
  }

  lemma ReleaseEnd(s: State)
    ensures Release(s, |s.out|) == s
  {}

  lemma HandOnly(s: State, p: Sent)
    ensures var r := Hand(s, p).0; r == s.(plan := r.plan, handed := if s.sockOpen then s.handed + [p] else s.handed)
  {}

  lemma RemovedFound(s: State, mid: Word16)
    ensures RemoveIn(s, mid).2 == Success ==> RemoveIn(s, mid).1.Some?
    ensures RemoveIn(s, mid).0.handed == s.handed
  {}
}
