/** The QoS 1 and QoS 2 message flow of a client (sections 4.3, 4.4 and 4.9) as a state machine:
    lists, quotas and packets handed to the sender. */
module ClientSpec {
  import opened Basics

  datatype MsgState =
    | Invalid | PublishQos1 | WaitForPuback | PublishQos2 | WaitForPubrec | ResendPubrel | WaitForPubcomp

  /** The QoS of a queued outgoing message. */
  type Qos12 = q: int | 1 <= q <= 2 witness 1

  /** An outgoing message. `uid` stands for the identity of the message object: it is the number
      of QoS 1 and 2 publishes that were accepted before it. */
  datatype OutMsg = OutMsg(uid: nat, mid: Word16, qos: Qos12, state: MsgState, dup: bool)

  /** An incoming message that waits for its PUBREL; `uid` numbers the received ones. */
  datatype InMsg = InMsg(uid: nat, mid: Word16, qos: nat)

  /** A packet that is handed to the sender while the socket is open. */
  datatype Sent =
    | SentPublish(uid: nat, mid: Word16, qos: nat, dup: bool)
    | SentPubrel(mid: Word16) | SentPuback(mid: Word16) | SentPubrec(mid: Word16) | SentPubcomp(mid: Word16)
    | SentQos0(mid: Word16) | SentDisconnect

  datatype State = State(
    v5: bool,
    sockOpen: bool,
    active: bool,                                   // the connection is established (CONNACK seen)
    out: seq<OutMsg>, outQuota: nat, outMax: nat, outLen: int,
    inc: seq<InMsg>, inQuota: nat, inMax: nat, inLen: int,
    lastMid: Word16,
    plan: seq<bool>,                                // the outcome of the next sends; then they succeed
    handed: seq<Sent>,
    accepted: nat,                                  // QoS 1 and 2 publishes accepted so far
    removed: set<nat>,                              // those taken off the list again
    received: nat,                                  // QoS 2 messages received so far
    delivered: seq<nat>,                            // those passed to the application
    dropped: seq<nat>)                              // those lost when their PUBCOMP could not be sent

  // ---------- Small steps ----------

  /** `mosquitto__mid_generate` */
  function NextMid(last: Word16): (mid: Word16)
    ensures mid != 0
  {
    var next := (last + 1) % 0x1_0000;
    if next == 0 then 1 else next
  }

  /** A send: fails without a socket, and otherwise as the plan says. */
  function Hand(s: State, p: Sent): (State, Rc) {
    if !s.sockOpen then (s, NoConn)
    else if s.plan == [] then (s.(handed := s.handed + [p]), Success)
    else (s.(handed := s.handed + [p], plan := s.plan[1..]), if s.plan[0] then Success else Errno)
  }

  function IncSendQuota(s: State): State {
    if s.outQuota < s.outMax then s.(outQuota := s.outQuota + 1) else s
  }

  function IncReceiveQuota(s: State): State {
    if s.inQuota < s.inMax then s.(inQuota := s.inQuota + 1) else s
  }

  function DecReceiveQuota(s: State): State {
    if s.inQuota > 0 then s.(inQuota := s.inQuota - 1) else s
  }

  /** The position of the first message with an identifier, or the length of the list. */
  function FirstOut(out: seq<OutMsg>, mid: Word16): (i: nat)
    ensures i <= |out| && (i < |out| ==> out[i].mid == mid) && forall k :: 0 <= k < i ==> out[k].mid != mid
  {
    if out == [] || out[0].mid == mid then 0 else 1 + FirstOut(out[1..], mid)
  }

  function FirstIn(inc: seq<InMsg>, mid: Word16): (i: nat)
    ensures i <= |inc| && (i < |inc| ==> inc[i].mid == mid) && forall k :: 0 <= k < i ==> inc[k].mid != mid
  {
    if inc == [] || inc[0].mid == mid then 0 else 1 + FirstIn(inc[1..], mid)
  }

  function Released(m: OutMsg): OutMsg {
    m.(state := if m.qos == 1 then WaitForPuback else WaitForPubrec)
  }

  /** `message__release_to_inflight` from position `i` on: unsent messages are published in order
      while there is quota; a failing send ends the walk with the message marked as sent. */
  function Release(s: State, i: nat): State
    requires i <= |s.out|
    decreases |s.out| - i
  {
    if i == |s.out| || s.outQuota == 0 then s
    else if s.out[i].state.Invalid? then
      var m := s.out[i];
      var (s1, rc) := Hand(s.(out := s.out[i := Released(m)]), SentPublish(m.uid, m.mid, m.qos, m.dup));
      if rc != Success then s1 else Release(s1.(outQuota := s1.outQuota - 1), i + 1)
    else Release(s, i + 1)
  }

  /** `message__remove` on the outgoing list. */
  function RemoveOut(s: State, mid: Word16, qos: nat): (State, Rc) {
    var i := FirstOut(s.out, mid);
    if i == |s.out| then (s, NotFound)
    else if s.out[i].qos != qos then (s, Protocol)
    else (s.(out := s.out[..i] + s.out[i + 1..], outLen := s.outLen - 1, removed := s.removed + {s.out[i].uid}), Success)
  }

  /** `message__remove` on the incoming list; the message is handed to the caller. */
  function RemoveIn(s: State, mid: Word16): (State, Option<InMsg>, Rc) {
    var i := FirstIn(s.inc, mid);
    if i == |s.inc| then (s, None, NotFound)
    else if s.inc[i].qos != 2 then (s, None, Protocol)
    else (s.(inc := s.inc[..i] + s.inc[i + 1..], inLen := s.inLen - 1), Some(s.inc[i]), Success)
  }

  // ---------- Events ----------

  datatype Event =
    | Publish(qos: Qos12)                           // the application publishes with QoS 1 or 2
    | PublishQos0                                   // or with QoS 0
    | Disconnect                                    // the application disconnects
    | Ack(mid: Word16, ackQos: Qos12)               // PUBACK (1) or PUBCOMP (2) arrives
    | Pubrec(mid: Word16, reason: Byte)
    | Incoming(inQos: nat, mid: Word16)             // a PUBLISH arrives
    | Pubrel(mid: Word16)
    | SocketLoss
    | Reconnect(ok: bool)
    | Connack(reasonCode: Byte, receiveMaximum: Option<Word16>)

  /** `mosquitto_publish_v5` for QoS 1 and 2, from the generation of the identifier on. */
  function DoPublish(s: State, qos: Qos12): State {
    Release(Queued(s, qos), 0)
  }

  /** `mosquitto_publish_v5` for QoS 0: an identifier is generated, and the message sent at once. */
  function DoPublishQos0(s: State): (State, Rc) {
    var mid := NextMid(s.lastMid);
    Hand(s.(lastMid := mid), SentQos0(mid))
  }

  /** `mosquitto_disconnect_v5` */
  function DoDisconnect(s: State): (State, Rc) {
    Hand(s.(active := false), SentDisconnect)
  }

  /** `message__queue` for a new message. */
  function Queued(s: State, qos: Qos12): State {
    var mid := NextMid(s.lastMid);
    s.(lastMid := mid, accepted := s.accepted + 1, outLen := s.outLen + 1,
       out := s.out + [OutMsg(s.accepted, mid, qos, Invalid, false)])
  }

  /** `handle__pubackcomp`: the quota is raised before anything is checked. */
  function DoAck(s: State, mid: Word16, qos: Qos12): (State, Rc) {
    if !s.active then (s, Protocol)
    else
      var s1 := IncSendQuota(s);
      if mid == 0 then (s1, Protocol)
      else
        var (s2, rc) := RemoveOut(s1, mid, qos);
        if rc != Success then (s2, rc) else (Release(s2, 0), Success)
  }

  /** `message__out_update` */
  function UpdateOut(s: State, mid: Word16, state: MsgState, qos: nat): (State, Rc) {
    var i := FirstOut(s.out, mid);
    if i == |s.out| then (s, NotFound)
    else if s.out[i].qos != qos then (s, Protocol)
    else (s.(out := s.out[i := s.out[i].(state := state)]), Success)
  }

  /** `handle__pubrec` */
  function DoPubrec(s: State, mid: Word16, reason: Byte): (State, Rc) {
    if !s.active || mid == 0 then (s, Protocol)
    else if reason < 0x80 || !s.v5 then
      var (s1, rc) := UpdateOut(s, mid, WaitForPubcomp, 2);
      if rc != Success && rc != NotFound then (s1, rc) else Hand(s1, SentPubrel(mid))
    else
      var s1 := RemoveOut(s, mid, 2).0;
      (Release(IncSendQuota(s1), 0), Success)
  }

  /** `handle__publish` behind the decoding. QoS 0 and 1 messages are delivered at once and are
      not part of the state. */
  function DoIncoming(s: State, qos: nat, mid: Word16): (State, Rc) {
    if !s.active then (s, Protocol)
    else if qos > 0 && ((s.v5 && s.inQuota == 0) || mid == 0) then (s, Protocol)
    else if qos == 0 then (s, Success)
    else if qos == 1 then Hand(IncReceiveQuota(DecReceiveQuota(s)), SentPuback(mid))
    else if qos == 2 then
      var (s1, rc) := Hand(DecReceiveQuota(s), SentPubrec(mid));
      (s1.(inc := s1.inc + [InMsg(s.received, mid, 2)], inLen := s1.inLen + 1, received := s.received + 1), rc)
    else (s, Protocol)
  }

  /** `handle__pubrel`: without a PUBCOMP the message is taken off the list and not delivered. */
  function DoPubrel(s: State, mid: Word16): (State, Rc) {
    if !s.active || mid == 0 then (s, Protocol)
    else
      var (s1, rc) := Hand(IncReceiveQuota(s), SentPubcomp(mid));
      var (s2, m, rc2) := RemoveIn(s1, mid);
      if rc != Success then (if m.Some? then s2.(dropped := s2.dropped + [m.value.uid]) else s2, rc)
      else if rc2 != Success then (s2, rc2)
      else (s2.(delivered := s2.delivered + [m.value.uid]), Success)
  }

  /** What `message__reconnect_reset` makes of an outgoing message for which there is quota. */
  function ResetState(m: OutMsg): MsgState {
    if m.qos == 1 then PublishQos1
    else if m.state.WaitForPubrec? then PublishQos2
    else if m.state.WaitForPubcomp? then ResendPubrel
    else m.state
  }

  /** One message of the outgoing half of `message__reconnect_reset`. */
  function ResetOutOne(s: State, i: nat): (r: State)
    requires i < |s.out|
    ensures |r.out| == |s.out|
  {
    var m := s.out[i];
    if s.outQuota != 0
    then s.(outLen := s.outLen + 1, outQuota := s.outQuota - 1, out := s.out[i := m.(state := ResetState(m))])
    else s.(outLen := s.outLen + 1, out := s.out[i := m.(state := Invalid)])
  }

  /** The outgoing half from position `i` on. */
  function ResetOut(s: State, i: nat): State
    requires i <= |s.out|
    decreases |s.out| - i
  {
    if i == |s.out| then s else ResetOut(ResetOutOne(s, i), i + 1)
  }

  /** One message of the incoming half: QoS 2 messages stay, everything else is deleted (but
      still counted). */
  function ResetInOne(s: State, i: nat): (r: State)
    requires i < |s.inc|
    ensures |r.inc| == if s.inc[i].qos == 2 then |s.inc| else |s.inc| - 1
  {
    var s1 := s.(inLen := s.inLen + 1);
    if s.inc[i].qos != 2 then s1.(inc := s.inc[..i] + s.inc[i + 1..]) else DecReceiveQuota(s1)
  }

  /** The incoming half from position `i` on. */
  function ResetIn(s: State, i: nat): State
    requires i <= |s.inc|
    decreases |s.inc| - i
  {
    if i == |s.inc| then s else ResetIn(ResetInOne(s, i), if s.inc[i].qos == 2 then i + 1 else i)
  }

  /** `message__reconnect_reset` */
  function Reset(s: State): State {
    ResetOutgoing(ResetIncoming(s))
  }

  function ResetIncoming(s: State): State {
    ResetIn(s.(inQuota := s.inMax, inLen := 0), 0)
  }

  function ResetOutgoing(s: State): State {
    ResetOut(s.(outQuota := s.outMax, outLen := 0), 0)
  }

  /** One message of `message__retry_check`; a failing send is ignored. */
  function RetryOne(s: State, i: nat): (r: State)
    requires i < |s.out|
    ensures |r.out| == |s.out|
  {
    var m := s.out[i];
    var s0 := s.(out := s.out[i := m.(dup := true)]);
    if m.state.PublishQos1? || m.state.PublishQos2? then Hand(s0, SentPublish(m.uid, m.mid, m.qos, true)).0
    else if m.state.ResendPubrel? || m.state.WaitForPubcomp? then Hand(s0, SentPubrel(m.mid)).0
    else s
  }

  /** `message__retry_check` from position `i` on. */
  function Retry(s: State, i: nat): State
    requires i <= |s.out|
    decreases |s.out| - i
  {
    if i == |s.out| then s else Retry(RetryOne(s, i), i + 1)
  }

  /** `handle__connack`: the quota is reset whatever is still in flight. (No client state is ever the
      disconnecting one that the source tests for.) */
  function DoConnack(s: State, reason: Byte, receiveMaximum: Option<Word16>): (State, Rc) {
    var max := if s.v5 && receiveMaximum.Some? then receiveMaximum.value else s.outMax;
    var s1 := s.(outMax := max, outQuota := max);
    if reason == 0 then (Retry(s1.(active := true), 0), Success)
    else (s1, if reason <= 5 then ConnRefused else Protocol)
  }

  /** One event. Packets only arrive over an open socket. */
  function Step(s: State, e: Event): (State, Rc) {
    match e
    case Publish(qos) => (DoPublish(s, qos), Success)
    case PublishQos0 => DoPublishQos0(s)
    case Disconnect => DoDisconnect(s)
    case SocketLoss => (s.(sockOpen := false), Success)
    case Reconnect(ok) => (Reset(s).(sockOpen := ok, active := false), if ok then Success else Errno)
    case _ => if !s.sockOpen then (s, NoConn) else Arrival(s, e)
  }

  function Arrival(s: State, e: Event): (State, Rc)
    requires !e.Publish? && !e.PublishQos0? && !e.Disconnect? && !e.SocketLoss? && !e.Reconnect?
  {
    match e
    case Ack(mid, qos) => DoAck(s, mid, qos)
    case Pubrec(mid, reason) => DoPubrec(s, mid, reason)
    case Incoming(qos, mid) => DoIncoming(s, qos, mid)
    case Pubrel(mid) => DoPubrel(s, mid)
    case Connack(reason, max) => DoConnack(s, reason, max)
  }

  function RunEvents(s: State, es: seq<Event>): State
    decreases |es|
  {
    if es == [] then s else RunEvents(Step(s, es[0]).0, es[1..])
  }

  /** A new client: nothing queued, both quotas at their maximum. */
  function Fresh(v5: bool, outMax: nat, inMax: nat, plan: seq<bool>): State {
    State(v5, false, false, [], outMax, outMax, 0, [], inMax, inMax, 0, 0, plan, [], 0, {}, 0, [], [])
  }
}
