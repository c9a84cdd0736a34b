/** What it means for the broker's books to be right, and how each small change keeps them so: the
    reference counts of the store against the references of all lists, its totals against its list,
    and the counters of the clients. The lemmas on single loop steps that the methods of `Broker`
    call are here too. */
module BrokerBooks {
  import opened Basics
  import opened BrokerSpec
  import Flow = BrokerFlow

  function SumLen(l: seq<Stored>): nat {
    if l == [] then 0 else l[0].payloadLen + SumLen(l[1..])
  }

  lemma {:induction false} SumLenWithout(l: seq<Stored>, i: nat)
    requires i < |l|
    ensures SumLen(l) == SumLen(Without(l, i)) + l[i].payloadLen
  {
    if i == 0 {
      assert Without(l, 0) == l[1..];
    } else {
      SumLenWithout(l[1..], i - 1);
      assert Without(l, i)[0] == l[0] && Without(l, i)[1..] == Without(l[1..], i - 1);
    }
  }

  /** The references held by the retained messages, one place for each topic. */
  function RetainedRefs(r: seq<Option<Stored>>): multiset<Stored> {
    if r == [] then multiset{} else Held(r[0]) + RetainedRefs(r[1..])
  }

  function Held(o: Option<Stored>): multiset<Stored> {
    if o.Some? then multiset{o.value} else multiset{}
  }

  lemma {:induction false} RetainedRefsUpdate(r: seq<Option<Stored>>, i: nat, o: Option<Stored>)
    requires i < |r|
    ensures RetainedRefs(r[i := o]) + Held(r[i]) == RetainedRefs(r) + Held(o)
  {
    hide Held;
    var u := r[i := o];
    assert RetainedRefs(u) == Held(u[0]) + RetainedRefs(u[1..]);
    if i == 0 {
      assert u[1..] == r[1..];
    } else {
      RetainedRefsUpdate(r[1..], i - 1, o);
      assert u[1..] == r[1..][i - 1 := o] && u[0] == r[0] && r[1..][i - 1] == r[i];
      assert (Held(r[0]) + RetainedRefs(u[1..])) + Held(r[i]) == Held(r[0]) + (RetainedRefs(u[1..]) + Held(r[i]));
      assert (Held(r[0]) + RetainedRefs(r[1..])) + Held(o) == Held(r[0]) + (RetainedRefs(r[1..]) + Held(o));
    }
  }

  /** The books of the store are right for these references: ids are unique, every reference count is
      the number of references, nothing refers to a removed message, and the totals are those of the list. */
  ghost predicate Booked(list: seq<Stored>, refCount: map<Stored, int>, count: int, bytes: int, lastId: nat,
                         refs: multiset<Stored>)
  {
    && (forall i, j :: 0 <= i < j < |list| ==> list[i].dbId != list[j].dbId)
    && (forall s :: s in list <==> s in refCount)
    && (forall s :: s in refCount ==> refCount[s] == refs[s])
    && (forall s :: s in refs ==> s in refCount)
    && count == |list| && bytes == SumLen(list)
    && (forall s :: s in list ==> s.dbId <= lastId)
  }

  /** References were given up, and exactly the messages that lost their last one left the store. */
  ghost predicate Shrunk(before: seq<Stored>, after: seq<Stored>, refsBefore: multiset<Stored>, refsAfter: multiset<Stored>) {
    refsAfter <= refsBefore && forall s :: s in after <==> s in before && (s in refsAfter || s !in refsBefore)
  }

  lemma ShrunkTrans(l0: seq<Stored>, l1: seq<Stored>, l2: seq<Stored>, r0: multiset<Stored>, r1: multiset<Stored>, r2: multiset<Stored>)
    requires Shrunk(l0, l1, r0, r1) && Shrunk(l1, l2, r1, r2)
    ensures Shrunk(l0, l2, r0, r2)
  {}

  /** A message with a new id joins the list with no references. */
  lemma BookedAdd(list: seq<Stored>, refCount: map<Stored, int>, count: int, bytes: int, lastId: nat,
                  refs: multiset<Stored>, s: Stored)
    requires Booked(list, refCount, count, bytes, lastId, refs) && s.dbId == lastId + 1
    ensures s !in list
    ensures Booked([s] + list, refCount[s := 0], count + 1, bytes + s.payloadLen, lastId + 1, refs)
  {
    DistinctAdd(list, s, lastId);
    hide SumLen;
    assert s !in refs;
  }

  lemma DistinctAdd(list: seq<Stored>, s: Stored, lastId: nat)
    requires forall i, j :: 0 <= i < j < |list| ==> list[i].dbId != list[j].dbId
    requires s.dbId == lastId + 1 && forall t :: t in list ==> t.dbId <= lastId
    ensures var added := [s] + list;
            (forall i, j :: 0 <= i < j < |added| ==> added[i].dbId != added[j].dbId) &&
            (forall t :: t in added <==> t == s || t in list) && SumLen(added) == s.payloadLen + SumLen(list)
    ensures s !in list
  {
    var added := [s] + list;
    assert added[1..] == list;
    assert forall j :: 0 < j < |added| ==> added[j] == list[j - 1];
  }

  lemma WithoutIn(list: seq<Stored>, i: nat)
    requires forall i, j :: 0 <= i < j < |list| ==> list[i].dbId != list[j].dbId
    requires i < |list|
    ensures forall s :: s in Without(list, i) <==> s in list && s != list[i]
  {
    var w := Without(list, i);
    forall s ensures s in w <==> s in list && s != list[i] {
      if s in list && s != list[i] {
        var j :| 0 <= j < |list| && list[j] == s;
        assert w[if j < i then j else j - 1] == s;
      }
    }
  }

  /** Taking a message without references out of the list. */
  lemma BookedWithout(list: seq<Stored>, refCount: map<Stored, int>, count: int, bytes: int, lastId: nat,
                      refs: multiset<Stored>, i: nat)
    requires Booked(list, refCount, count, bytes, lastId, refs) && i < |list| && list[i] !in refs
    ensures Booked(Without(list, i), refCount - {list[i]}, count - 1, bytes - list[i].payloadLen, lastId, refs)
    ensures forall s :: s in Without(list, i) <==> s in list && s != list[i]
  {
    hide SumLen;
    WithoutIn(list, i);
    SumLenWithout(list, i);
  }

  /** Giving up one reference: the count says whether it was the last. */
  lemma BookedDec(list: seq<Stored>, refCount: map<Stored, int>, count: int, bytes: int, lastId: nat,
                  refs: multiset<Stored>, s: Stored)
    requires Booked(list, refCount, count, bytes, lastId, refs + multiset{s})
    ensures s in list && s in refCount && (refCount[s] == 1 <==> s !in refs)
    ensures Booked(list, refCount[s := refCount[s] - 1], count, bytes, lastId, refs)
  {
    hide SumLen;
    var after := refs + multiset{s};
    assert s in after;
    assert forall t :: after[t] == refs[t] + if t == s then 1 else 0;
  }

  lemma BookedInc(list: seq<Stored>, refCount: map<Stored, int>, count: int, bytes: int, lastId: nat,
                  refs: multiset<Stored>, s: Stored)
    requires Booked(list, refCount, count, bytes, lastId, refs) && s in list
    ensures s in refCount && Booked(list, refCount[s := refCount[s] + 1], count, bytes, lastId, refs + multiset{s})
  {
    hide SumLen;
    var after := refs + multiset{s};
    assert forall t :: after[t] == refs[t] + if t == s then 1 else 0;
  }

  /** The messages of the list that are referred to. */
  function Referenced(l: seq<Stored>, refCount: map<Stored, int>): seq<Stored> {
    if l == [] then [] else (if l[0] in refCount && refCount[l[0]] >= 1 then [l[0]] else []) + Referenced(l[1..], refCount)
  }

  lemma {:induction false} ReferencedIn(l: seq<Stored>, refCount: map<Stored, int>, s: Stored)
    ensures s in Referenced(l, refCount) <==> s in l && s in refCount && refCount[s] >= 1
  {
    if l != [] {
      ReferencedIn(l[1..], refCount, s);
      assert s in l <==> s == l[0] || s in l[1..];
    }
  }

  /** What is known of a client when it connects. */
  datatype Session = Session(id: nat, v5: bool, lazyBridge: bool, maximumQos: Qos, inMaximum: nat, outMaximum: nat)

  const NOTHING: MsgData := MsgData([], [], 0, 0, 0, 0, 0, 0)

  function Fresh(session: Session): Context {
    Context(session.id, true, true, true, session.v5, session.lazyBridge, session.maximumQos,
            NOTHING.(quota := session.inMaximum, maximum := session.inMaximum),
            NOTHING.(quota := session.outMaximum, maximum := session.outMaximum))
  }

  predicate HasNoMessages(c: Context) {
    c.msgsIn.inflight == [] && c.msgsIn.queued == [] && c.msgsOut.inflight == [] && c.msgsOut.queued == []
  }

  /** The operations of a run. */
  datatype Op =
    | Connect(session: Session)
    | Resume(session: Session, f: nat)              // a client connects and takes over the session of `f`
    | Restart(c: nat, cleanStart: bool)             // a bridge starts anew
    | Lost(c: nat)
    | Publish(c: nat, mid: Word16, hasTopic: bool, qos: Qos, retain: bool, payloadLen: nat, expiryInterval: nat,
              now: nat, ds: seq<Flow.Delivery>, queued: bool)
    | SendRetained(c: nat, topic: nat, mid: Word16, qos: Qos)
    | Puback(c: nat, mid: Word16)
    | Pubcomp(c: nat, mid: Word16)
    | Pubrec(c: nat, mid: Word16, reason: Byte, sent: Rc)
    | Pubrel(c: nat, mid: Word16, fan: nat -> Fanout, sent: Rc)
    | Write(c: nat, now: nat, out: nat -> Flow.SendResult)
    | Delete(c: nat)
    | Compact

  lemma FreshEmpty(session: Session)
    ensures ContextRefs(Fresh(session)) == multiset{} && ContextCounted(Fresh(session))
  {}

  lemma {:induction false} AllRefsSnoc(cs: seq<Context>, c: Context)
    requires ContextRefs(c) == multiset{}
    ensures AllRefs(cs + [c]) == AllRefs(cs)
  {
    hide ContextRefs;
    if cs == [] {
      assert [c][1..] == [] && cs + [c] == [c];
    } else {
      assert (cs + [c])[0] == cs[0] && (cs + [c])[1..] == cs[1..] + [c];
      AllRefsSnoc(cs[1..], c);
    }
  }

  lemma {:induction false} SameContextRefs(cs: seq<Context>, c: nat, d: Context)
    requires c < |cs| && d.msgsIn == cs[c].msgsIn && d.msgsOut == cs[c].msgsOut
    ensures AllRefs(cs[c := d]) == AllRefs(cs)
  {
    hide AllRefs, MdRefs;
    AllRefsUpdate(cs, c, d);
    forall t ensures AllRefs(cs[c := d])[t] == AllRefs(cs)[t] {
      assert (AllRefs(cs[c := d]) + ContextRefs(cs[c]))[t] == (AllRefs(cs) + ContextRefs(d))[t];
    }
  }

  /** Moving the lists of one client to another without any changes no number of references. */
  lemma MovedRefs(cs: seq<Context>, c: nat, f: nat, got: Context, left: Context)
    requires c < |cs| && f < |cs| && c != f && HasNoMessages(cs[c]) && HasNoMessages(left)
    requires got.msgsIn == cs[f].msgsIn && got.msgsOut == cs[f].msgsOut
    ensures AllRefs(cs[f := left][c := got]) == AllRefs(cs)
  {
    assert ContextRefs(cs[c]) == multiset{} && ContextRefs(left) == multiset{};
    assert ContextRefs(got) == ContextRefs(cs[f]);
    hide AllRefs, ContextRefs;
    AllRefsUpdate(cs, f, left);
    AllRefsUpdate(cs[f := left], c, got);
    var x, y, z := AllRefs(cs[f := left][c := got]), AllRefs(cs[f := left]), AllRefs(cs);
    forall t ensures x[t] == z[t] {
      assert (y + ContextRefs(cs[f]))[t] == (z + ContextRefs(left))[t];
      assert (x + ContextRefs(cs[c]))[t] == (y + ContextRefs(got))[t];
    }
  }

  /** Whether a message with this id is still in line. */
  predicate ReceivedBefore(md: MsgData, mid: Word16) {
    var l := md.inflight + md.queued; exists i :: 0 <= i < |l| && l[i].store.sourceMid == mid
  }

  /** The client a bridge connection is before it connects. */
  function Offline(c: Context): Context {
    c.(connected := false, active := false)
  }

  /** The clients once a message of QoS 1 was answered. */
  function QuotaGiven(cs: seq<Context>, c: nat): seq<Context>
    requires c < |cs|
  {
    Put(cs, c, Incoming, Flow.Raised(cs[c].msgsIn))
  }

  /** The clients once a message of this QoS was received. */
  function QuotaTaken(cs: seq<Context>, c: nat, qos: Qos): seq<Context>
    requires c < |cs|
  {
    if qos == 1 then Put(cs, c, Incoming, cs[c].msgsIn.(quota := Flow.Less(cs[c].msgsIn.quota, 1))) else cs
  }

  lemma NothingCounted()
    ensures CountersOk(NOTHING, true) && CountersOk(NOTHING, false)
  {
    EmptyCounted(NOTHING);
  }

  lemma EmptyCounted(md: MsgData)
    requires md.inflight == md.queued == [] && md.count == md.bytes == md.count12 == md.bytes12 == 0
    ensures CountersOk(md, true) && CountersOk(md, false)
  {
    EmptySums();
    hide Count12, Bytes12, ListBytes;
  }

  lemma EmptySums()
    ensures ListBytes([]) == 0 && Count12([]) == 0 && Bytes12([]) == 0
  {}

  lemma ExactIsEnough(md: MsgData, exact12: bool)
    requires CountersOk(md, true)
    ensures CountersOk(md, exact12)
  {}

  lemma QuotaKeeps(md: MsgData, quota: nat)
    ensures DriftOf(md.(quota := quota)) == DriftOf(md) && MdRefs(md.(quota := quota)) == MdRefs(md)
  {}

  lemma {:induction false} NothingRetained(r: seq<Option<Stored>>)
    requires forall i :: 0 <= i < |r| ==> r[i].None?
    ensures RetainedRefs(r) == multiset{}
  {
    if r != [] {
      NothingRetained(r[1..]);
    }
  }

  lemma {:induction false} RetainedIsHeld(r: seq<Option<Stored>>, i: nat)
    requires i < |r| && r[i].Some?
    ensures r[i].value in RetainedRefs(r)
  {
    if i > 0 {
      RetainedIsHeld(r[1..], i - 1);
    }
  }

  lemma WriteStillCounted(cs: seq<Context>, c: nat, now: nat, out: nat -> Flow.SendResult)
    requires c < |cs| && forall i :: 0 <= i < |cs| ==> ContextCounted(cs[i])
    ensures var ds := cs[c := Flow.Write(cs[c], now, out).0]; forall i :: 0 <= i < |ds| ==> ContextCounted(ds[i])
  {
    hide DriftOf, Flow.Write;
    Flow.WriteCounted(cs[c], now, out);
  }

  lemma SameBare(m: ClientMsg, state: MsgState)
    ensures Bare(m.(state := state)) == Bare(m)
  {}

  lemma SentBare(m: ClientMsg)
    ensures Bare(Flow.AfterSend(m)) == Bare(m)
  {}

  lemma WriteInNone(quota: nat, maximum: nat, now: nat, out: nat -> Flow.SendResult, k: nat)
    ensures Flow.WriteIn([], quota, maximum, now, out, k) == Flow.Written([], quota, k, true)
  {}

  lemma WriteOutNone(now: nat, out: nat -> Flow.SendResult, k: nat)
    ensures Flow.WriteOut([], now, out, k) == Flow.Written([], 0, k, true)
  {}

  /** The loop over incoming messages at position `i`. */
  lemma WriteInStep(l: seq<ClientMsg>, i: nat, quota: nat, maximum: nat, now: nat, out: nat -> Flow.SendResult, k: nat)
    requires i < |l|
    ensures var here := Flow.WriteIn(l[i..], quota, maximum, now, out, k);
            var m := l[i];
            var q := if m.state.ResendPubcomp? && quota < maximum then quota + 1 else quota;
            if Flow.Expired(m, now) then here == Flow.WriteIn(l[i + 1..], quota, maximum, now, out, k)
            else if m.state.SendPubrec? || m.state.ResendPubcomp? then
              var next := Flow.WriteIn(l[i + 1..], q, maximum, now, out, k + 1);
              var changed := l[i := m.(state := WaitForPubrel)];
              if out(k).Sent? then
                changed[..i + 1] + next.l == l[..i] + here.l && here == next.(l := here.l) && changed[i + 1..] == l[i + 1..]
              else here == Flow.Written(l[i..], q, k + 1, false) && l[..i] + l[i..] == l && l[i := m] == l
            else
              var next := Flow.WriteIn(l[i + 1..], quota, maximum, now, out, k);
              l[..i + 1] + next.l == l[..i] + here.l && here == next.(l := here.l)
    ensures Without(l, i)[..i] == l[..i] && Without(l, i)[i..] == l[i + 1..]
  {
    hide Without, Flow.Expired;
    WithoutParts(l, i);
    var m := l[i];
    var q := if m.state.ResendPubcomp? && quota < maximum then quota + 1 else quota;
    Slices(l, i, m.(state := WaitForPubrel), Flow.WriteIn(l[i + 1..], q, maximum, now, out, k + 1).l);
    Slices(l, i, m, Flow.WriteIn(l[i + 1..], quota, maximum, now, out, k).l);
  }

  /** The parts of a list, and of the list with another message, at position `i`. */
  lemma Slices(l: seq<ClientMsg>, i: nat, m: ClientMsg, t: seq<ClientMsg>)
    requires i < |l|
    ensures l[i..][0] == l[i] && l[i..][1..] == l[i + 1..] && l[..i] + l[i..] == l && l[i := l[i]] == l
    ensures l[i := m][..i + 1] + t == l[..i] + ([m] + t) && l[i := m][i + 1..] == l[i + 1..]
    ensures l[..i + 1] == l[..i] + [l[i]]
  {
    assert l[i := m][..i + 1] == l[..i] + [m];
  }

  lemma WithoutParts(l: seq<ClientMsg>, i: nat)
    requires i < |l|
    ensures Without(l, i)[..i] == l[..i] && Without(l, i)[i..] == l[i + 1..]
  {}

  /** The loop over outgoing messages at position `i`. */
  lemma WriteOutStep(l: seq<ClientMsg>, i: nat, now: nat, out: nat -> Flow.SendResult, k: nat)
    requires i < |l|
    ensures var here := Flow.WriteOut(l[i..], now, out, k);
            var m := l[i];
            if Flow.Expired(m, now) then here == Flow.WriteOut(l[i + 1..], now, out, k)
            else if Flow.ToPublish(m) || m.state.ResendPubrel? then
              var next := Flow.WriteOut(l[i + 1..], now, out, k + 1);
              var changed := l[i := Flow.AfterSend(m)];
              if out(k).Failed? || (out(k).Oversize? && m.state.ResendPubrel?) then
                here == Flow.Written(l[i..], 0, k + 1, false) && l[..i] + l[i..] == l
              else if out(k).Oversize? || m.state.PublishQos0? then here == next
              else changed[..i + 1] + next.l == l[..i] + here.l && here == next.(l := here.l) && changed[i + 1..] == l[i + 1..]
            else
              var next := Flow.WriteOut(l[i + 1..], now, out, k);
              l[..i + 1] + next.l == l[..i] + here.l && here == next.(l := here.l)
    ensures Without(l, i)[..i] == l[..i] && Without(l, i)[i..] == l[i + 1..]
  {
    hide Flow.AfterSend, Flow.ToPublish, Without, Flow.Expired;
    WithoutParts(l, i);
    Slices(l, i, Flow.AfterSend(l[i]), Flow.WriteOut(l[i + 1..], now, out, k + 1).l);
    Slices(l, i, l[i], Flow.WriteOut(l[i + 1..], now, out, k).l);
  }

  /** What the loop has left to do completes what it is to do. */
  ghost predicate OutRemains(goal: Flow.Written, l: seq<ClientMsg>, i: nat, now: nat, out: nat -> Flow.SendResult, k: nat)
    requires i <= |l|
  {
    var r := Flow.WriteOut(l[i..], now, out, k);
    goal == r.(l := l[..i] + r.l)
  }

  lemma OutRemainsStart(l: seq<ClientMsg>, now: nat, out: nat -> Flow.SendResult, k: nat)
    ensures OutRemains(Flow.WriteOut(l, now, out, k), l, 0, now, out, k)
  {
    hide Flow.WriteOut;
    assert l[..0] == [] && l[0..] == l && [] + Flow.WriteOut(l, now, out, k).l == Flow.WriteOut(l, now, out, k).l;
  }

  lemma OutRemainsEnd(goal: Flow.Written, l: seq<ClientMsg>, now: nat, out: nat -> Flow.SendResult, k: nat)
    requires OutRemains(goal, l, |l|, now, out, k)
    ensures goal == Flow.Written(l, 0, k, true)
  {
    WriteOutNone(now, out, k);
    assert l[..|l|] == l && l[|l|..] == [] && l + [] == l;
  }

  lemma OutRemainsStep(goal: Flow.Written, l: seq<ClientMsg>, i: nat, now: nat, out: nat -> Flow.SendResult, k: nat)
    requires i < |l| && OutRemains(goal, l, i, now, out, k)
    ensures var m := l[i];
            |Without(l, i)| == |l| - 1 &&
            if Flow.Expired(m, now) then OutRemains(goal, Without(l, i), i, now, out, k)
            else if Flow.ToPublish(m) || m.state.ResendPubrel? then
              if out(k).Failed? || (out(k).Oversize? && m.state.ResendPubrel?) then goal == Flow.Written(l, 0, k + 1, false)
              else if out(k).Oversize? || m.state.PublishQos0? then OutRemains(goal, Without(l, i), i, now, out, k + 1)
              else OutRemains(goal, l[i := Flow.AfterSend(m)], i + 1, now, out, k + 1)
            else OutRemains(goal, l, i + 1, now, out, k)
  {
    hide Flow.AfterSend, Flow.ToPublish, Without, Flow.Expired, Flow.WriteOut;
    WriteOutStep(l, i, now, out, k);
  }

  /** Who gets a released message, and whether handing it on worked. */
  datatype Fanout = Fanout(ds: seq<Flow.Delivery>, ok: bool)

  function OkOf(fan: nat -> Fanout): nat -> bool {
    (k: nat) => fan(k).ok
  }

  lemma OkAt(fan: nat -> Fanout, k: nat)
    ensures OkOf(fan)(k) == fan(k).ok
  {}

  lemma RelistSelf(md: MsgData)
    ensures Relist(md, md.inflight, md.queued) == md
  {}

  lemma RelistAgain(md: MsgData, a: seq<ClientMsg>, b: seq<ClientMsg>)
    ensures Relist(Relist(md, a, md.queued), b, md.queued) == Relist(md, b, md.queued)
    ensures Relist(md, a, md.queued).queued == md.queued && Relist(md, b, md.queued).inflight == b
  {
    hide Count12, Bytes12, ListBytes;
  }

  lemma {:induction false} RefsOfOne(cs: seq<Context>, c: nat)
    requires c < |cs|
    ensures ContextRefs(cs[c]) <= AllRefs(cs)
  {
    hide ContextRefs;
    if c > 0 {
      RefsOfOne(cs[1..], c - 1);
    }
  }

  /** Handing a message out touches only what is outgoing. */
  lemma {:induction false} HandedKeepsIn(limits: Limits, cs: seq<Context>, dests: set<(Stored, nat)>, s: Stored, ds: seq<Flow.Delivery>)
    ensures var r := Flow.Handed(limits, cs, dests, s, ds).0;
            |r| == |cs| && forall j :: 0 <= j < |cs| ==> r[j].msgsIn == cs[j].msgsIn
    decreases |ds|
  {
    hide Flow.Admittance, AddMessage;
    if ds != [] {
      var r := Flow.HandedOne(limits, cs, dests, s, ds[0]);
      HandedKeepsIn(limits, r.0, r.1, s, ds[1..]);
    }
  }

  /** Handing a message out neither looks at what is incoming nor changes it. */
  lemma {:induction false} HandedIgnoresIn(limits: Limits, cs: seq<Context>, c: nat, md: MsgData, dests: set<(Stored, nat)>,
                                           s: Stored, ds: seq<Flow.Delivery>)
    requires c < |cs|
    ensures var r := Flow.Handed(limits, cs, dests, s, ds);
            |r.0| == |cs| && Flow.Handed(limits, Put(cs, c, Incoming, md), dests, s, ds) == (Put(r.0, c, Incoming, md), r.1)
    decreases |ds|
  {
    hide Flow.HandedOne, Put;
    if ds != [] {
      HandedOneIgnoresIn(limits, cs, c, md, dests, s, ds[0]);
      var r := Flow.HandedOne(limits, cs, dests, s, ds[0]);
      HandedIgnoresIn(limits, r.0, c, md, r.1, s, ds[1..]);
    }
  }

  lemma HandedOneIgnoresIn(limits: Limits, cs: seq<Context>, c: nat, md: MsgData, dests: set<(Stored, nat)>, s: Stored, d: Flow.Delivery)
    requires c < |cs|
    ensures var r := Flow.HandedOne(limits, cs, dests, s, d);
            |r.0| == |cs| && Flow.HandedOne(limits, Put(cs, c, Incoming, md), dests, s, d) == (Put(r.0, c, Incoming, md), r.1)
  {
    if d.ToClient? && d.client < |cs| {
      var j := d.client;
      var x := Put(cs, c, Incoming, md);
      AdmittanceIgnoresIn(limits, cs[j], md, d.qos, d.retain, (s, cs[j].id) in dests);
      var a := Flow.Admittance(limits, cs[j], Outgoing, d.qos, d.retain, (s, cs[j].id) in dests);
      if a.Admit? {
        DeliveredIgnoresIn(cs[j], md, d.mid, d.qos, d.retain, s, a.state);
        hide Flow.Admittance, Flow.Delivered;
        var to := Flow.Delivered(cs[j], Outgoing, d.mid, d.qos, d.retain, s, a.state);
        if j == c {
          assert x[c := to.(msgsIn := md)] == Put(cs[c := to], c, Incoming, md);
        } else {
          assert x[j := to] == Put(cs[j := to], c, Incoming, md);
        }
      }
    }
  }

  lemma AdmittanceIgnoresIn(limits: Limits, c: Context, md: MsgData, qos: Qos, retain: bool, already: bool)
    ensures Flow.Admittance(limits, c.(msgsIn := md), Outgoing, qos, retain, already)
            == Flow.Admittance(limits, c, Outgoing, qos, retain, already)
  {
    assert ReadyForQueue(limits, c.(msgsIn := md), qos, c.msgsOut) == ReadyForQueue(limits, c, qos, c.msgsOut);
    hide ReadyForFlight, ReadyForQueue;
  }

  lemma DeliveredIgnoresIn(c: Context, md: MsgData, mid: Word16, qos: Qos, retain: bool, s: Stored, state: MsgState)
    ensures Flow.Delivered(c.(msgsIn := md), Outgoing, mid, qos, retain, s, state)
            == Flow.Delivered(c, Outgoing, mid, qos, retain, s, state).(msgsIn := md)
  {
    hide AddMessage;
  }

  /** Clients, records of deliveries, and retained messages. */
  type Outside = (seq<Context>, set<(Stored, nat)>, seq<Option<Stored>>)

  /** Handing one released message on. */
  function ReleasedOne(limits: Limits, h: Outside, s: Stored, fan: Fanout): (r: Outside)
    ensures |r.0| == |h.0|
  {
    if s.qos == 2 && s.hasTopic then
      var r := Flow.Handed(limits, h.0, h.1, s, fan.ds);
      (r.0, r.1, AfterRetains(h.2, s, fan.ds))
    else h
  }

  /** Handing on, in order, the messages of a list that a PUBREL names, until one stops it. */
  function ReleasedTo(limits: Limits, h: Outside, l: seq<ClientMsg>, mid: Word16, fan: nat -> Fanout, k: nat): (r: Outside)
    ensures |r.0| == |h.0|
    decreases |l|
  {
    if l == [] then h
    else if l[0].mid != mid then ReleasedTo(limits, h, l[1..], mid, fan, k)
    else
      var s := l[0].store;
      var next := ReleasedOne(limits, h, s, fan(k));
      if s.qos != 2 || (s.hasTopic && !fan(k).ok) then next
      else ReleasedTo(limits, next, l[1..], mid, fan, if s.hasTopic then k + 1 else k)
  }

  lemma ReleasedToStep(limits: Limits, h: Outside, l: seq<ClientMsg>, i: nat, mid: Word16, fan: nat -> Fanout, k: nat)
    requires i < |l|
    ensures var s := l[i].store;
            var next := ReleasedOne(limits, h, s, fan(k));
            ReleasedTo(limits, h, l[i..], mid, fan, k) ==
              if l[i].mid != mid then ReleasedTo(limits, h, l[i + 1..], mid, fan, k)
              else if s.qos != 2 || (s.hasTopic && !fan(k).ok) then next
              else ReleasedTo(limits, next, l[i + 1..], mid, fan, if s.hasTopic then k + 1 else k)
  {
    hide ReleasedOne;
    assert l[i..][0] == l[i] && l[i..][1..] == l[i + 1..];
  }

  lemma NothingReleasedTo(limits: Limits, h: Outside, mid: Word16, fan: nat -> Fanout, k: nat)
    ensures ReleasedTo(limits, h, [], mid, fan, k) == h
  {}

  lemma PutSelf(cs: seq<Context>, c: nat)
    requires c < |cs|
    ensures Put(cs, c, Incoming, cs[c].msgsIn) == cs
  {}

  /** One release, seen from the clients as they were before this PUBREL. */
  lemma ReleasePut(limits: Limits, h: Outside, c: nat, md: MsgData, l: seq<ClientMsg>, i: nat, fan: Fanout)
    requires c < |h.0| && i < |l|
    ensures var cur := Relist(md, l, md.queued);
            var cs := Put(h.0, c, Incoming, cur);
            var s := l[i].store;
            var x, y := ReleasedOne(limits, (cs, h.1, h.2), s, fan), ReleasedOne(limits, h, s, fan);
            |x.0| == |y.0| == |h.0| && cs[c].msgsIn == cur && cur.inflight == l &&
            x == (Put(y.0, c, Incoming, cur), y.1, y.2) &&
            Put(x.0, c, Incoming, Relist(cur, Without(cur.inflight, i), cur.queued))
              == Put(y.0, c, Incoming, Relist(md, Without(l, i), md.queued)) &&
            Put(y.0, c, Incoming, Relist(md, Without(l, i), md.queued))[c].msgsIn == Relist(md, Without(l, i), md.queued) &&
            Relist(md, Without(l, i), md.queued).inflight == Without(l, i)
  {
    hide Count12, Bytes12, ListBytes, Flow.Handed, AfterRetains, Without;
    var cur := Relist(md, l, md.queued);
    HandedIgnoresIn(limits, h.0, c, cur, h.1, l[i].store, fan.ds);
    RelistAgain(md, l, Without(l, i));
    hide Relist;
    var y := ReleasedOne(limits, h, l[i].store, fan);
    PutPut(y.0, c, Incoming, cur, Relist(md, Without(l, i), md.queued));
  }

  lemma NothingReleased(mid: Word16, queueOk: nat -> bool, k: nat)
    ensures Flow.Released([], mid, queueOk, k) == Flow.Release([], false, None)
  {}

  /** The release loop at position `i`. */
  lemma ReleaseStep(l: seq<ClientMsg>, i: nat, mid: Word16, queueOk: nat -> bool, k: nat)
    requires i < |l|
    ensures var here := Flow.Released(l[i..], mid, queueOk, k);
            var m := l[i];
            if m.mid != mid then
              var next := Flow.Released(l[i + 1..], mid, queueOk, k);
              l[..i] + here.rest == l[..i + 1] + next.rest && here.stop == next.stop && here.deleted == next.deleted
            else if m.store.qos != 2 then l[..i] + here.rest == l && here.stop == Some(Protocol)
            else if m.store.hasTopic && !queueOk(k) then l[..i] + here.rest == l && here.stop == Some(NoMem)
            else
              var next := Flow.Released(l[i + 1..], mid, queueOk, if m.store.hasTopic then k + 1 else k);
              here.rest == next.rest && here.stop == next.stop && here.deleted
    ensures Without(l, i)[..i] == l[..i] && Without(l, i)[i..] == l[i + 1..]
  {
    assert l[i..][0] == l[i] && l[i..][1..] == l[i + 1..];
    assert l[..i + 1] == l[..i] + [l[i]];
  }

  /** The retained messages after the deliveries of `s`. */
  function AfterRetains(retained: seq<Option<Stored>>, s: Stored, ds: seq<Flow.Delivery>): seq<Option<Stored>>
    decreases |ds|
  {
    if ds == [] then retained else AfterRetains(RetainOne(retained, s, ds[0]), s, ds[1..])
  }

  function RetainOne(retained: seq<Option<Stored>>, s: Stored, d: Flow.Delivery): seq<Option<Stored>> {
    if d.Retain? && d.topic < |retained| then retained[d.topic := if s.payloadLen > 0 then Some(s) else None] else retained
  }

  lemma HandStep(limits: Limits, cs: seq<Context>, dests: set<(Stored, nat)>, retained: seq<Option<Stored>>,
                 s: Stored, ds: seq<Flow.Delivery>, i: nat)
    requires i < |ds|
    ensures var r := Flow.HandedOne(limits, cs, dests, s, ds[i]);
            Flow.Handed(limits, cs, dests, s, ds[i..]) == Flow.Handed(limits, r.0, r.1, s, ds[i + 1..])
    ensures AfterRetains(retained, s, ds[i..]) == AfterRetains(RetainOne(retained, s, ds[i]), s, ds[i + 1..])
  {
    hide Flow.HandedOne, RetainOne;
    assert ds[i..][0] == ds[i] && ds[i..][1..] == ds[i + 1..];
  }

  lemma HandNone(limits: Limits, cs: seq<Context>, dests: set<(Stored, nat)>, retained: seq<Option<Stored>>, s: Stored)
    ensures Flow.Handed(limits, cs, dests, s, []) == (cs, dests) && AfterRetains(retained, s, []) == retained
  {}

  lemma LastGone(l0: seq<Stored>, l1: seq<Stored>, l2: seq<Stored>, r0: multiset<Stored>, r: multiset<Stored>, s: Stored)
    requires OthersShrunk(l0, l1, r0 + multiset{s}, r + multiset{s}, s) && s in l1
    requires Shrunk(l1, l2, r + multiset{s}, r)
    ensures OthersShrunk(l0, l2, r0, r, s) && (s in l2 <==> s in r)
  {
    assert forall t :: t != s ==> (r0 + multiset{s})[t] == r0[t] && (r + multiset{s})[t] == r[t];
  }

  /** Of the messages other than `s`, references were only given up, and those that lost their last one left. */
  ghost predicate OthersShrunk(before: seq<Stored>, after: seq<Stored>, refsBefore: multiset<Stored>, refsAfter: multiset<Stored>, s: Stored) {
    forall t :: t != s ==> refsAfter[t] <= refsBefore[t] && (t in after <==> t in before && (t in refsAfter || t !in refsBefore))
  }

  lemma OthersShrunkNothing(list: seq<Stored>, refs: multiset<Stored>, s: Stored)
    ensures OthersShrunk(list, list, refs, refs, s)
  {}

  lemma OthersShrunkMore(before: seq<Stored>, after: seq<Stored>, r0: multiset<Stored>, r1: multiset<Stored>, s: Stored)
    requires OthersShrunk(before, after, r0, r1, s)
    ensures OthersShrunk(before, after, r0, r1 + multiset{s}, s)
  {}

  lemma OthersShrunkTrans(l0: seq<Stored>, l1: seq<Stored>, l2: seq<Stored>, r0: multiset<Stored>, r1: multiset<Stored>, r2: multiset<Stored>, s: Stored)
    requires OthersShrunk(l0, l1, r0, r1, s) && OthersShrunk(l1, l2, r1, r2, s)
    ensures OthersShrunk(l0, l2, r0, r2, s)
  {}

  /** A message that running code holds stays in the store when another reference is given up. */
  lemma HeldStays(before: seq<Stored>, after: seq<Stored>, r0: multiset<Stored>, r1: multiset<Stored>, s: Stored)
    requires Shrunk(before, after, r0, r1) && s in r1 && s in before
    ensures s in after && OthersShrunk(before, after, r0, r1, s)
  {}

  lemma Shuffle(x: multiset<Stored>, y: multiset<Stored>, s: Stored, a: multiset<Stored>, b: multiset<Stored>)
    requires x == y + multiset{s}
    ensures x + a + b == y + a + b + multiset{s} && a + x + b == a + y + b + multiset{s}
  {}

  lemma {:induction false} OneRefMore(cs: seq<Context>, c: nat, d: Context, s: Stored)
    requires c < |cs| && ContextRefs(d) == ContextRefs(cs[c]) + multiset{s}
    ensures AllRefs(cs[c := d]) == AllRefs(cs) + multiset{s}
  {
    hide AllRefs, ContextRefs;
    AllRefsUpdate(cs, c, d);
    forall t ensures AllRefs(cs[c := d])[t] == (AllRefs(cs) + multiset{s})[t] {
      assert (AllRefs(cs[c := d]) + ContextRefs(cs[c]))[t] == (AllRefs(cs) + ContextRefs(d))[t];
    }
  }

  /** The contexts with other in-flight messages for client `c`, counted as that changes. */
  function At(cs: seq<Context>, c: nat, dir: Direction, l: seq<ClientMsg>, quota: nat): (r: seq<Context>)
    requires c < |cs|
    ensures |r| == |cs| && Md(r[c], dir).inflight == l && Md(r[c], dir).quota == quota
    ensures Md(r[c], dir).maximum == Md(cs[c], dir).maximum && Md(r[c], dir).queued == Md(cs[c], dir).queued
  {
    var md := Md(cs[c], dir);
    Put(cs, c, dir, Relist(md, l, md.queued).(quota := quota))
  }

  lemma AtIs(cs: seq<Context>, c: nat, dir: Direction, l: seq<ClientMsg>, quota: nat)
    requires c < |cs| && quota == Md(cs[c], dir).quota
    ensures At(cs, c, dir, l, quota) == Put(cs, c, dir, Relist(Md(cs[c], dir), l, Md(cs[c], dir).queued))
  {
    hide Count12, Bytes12, ListBytes;
  }

  lemma RelistDrift(md: MsgData, l: seq<ClientMsg>)
    ensures Relist(md, l, md.queued).inflight == l && DriftOf(Relist(md, l, md.queued)) == DriftOf(md)
  {
    hide Count12, Bytes12, ListBytes;
  }

  /** A client whose counters are as exact as before is still counted. */
  lemma StillCounted(cs: seq<Context>, c: nat, dir: Direction, md: MsgData)
    requires c < |cs| && DriftOf(md) == DriftOf(Md(cs[c], dir))
    requires forall i :: 0 <= i < |cs| ==> ContextCounted(cs[i])
    ensures forall i :: 0 <= i < |cs| ==> ContextCounted(Put(cs, c, dir, md)[i])
  {
    hide DriftOf;
  }

  lemma NoRefs(a: MsgData, b: MsgData)
    requires a.inflight == b.inflight == [] && a.queued == b.queued == []
    ensures MdRefs(a) == MdRefs(b)
  {}

  lemma HeadRefs(md: MsgData)
    ensures md.queued != [] ==> MdRefs(md) == MdRefs(md.(queued := md.queued[1..])) + multiset{md.queued[0].store}
    ensures md.inflight != [] ==> MdRefs(md) == MdRefs(md.(inflight := md.inflight[1..])) + multiset{md.inflight[0].store}
  {}

  lemma AtStart(cs: seq<Context>, c: nat, dir: Direction)
    requires c < |cs|
    ensures At(cs, c, dir, Md(cs[c], dir).inflight, Md(cs[c], dir).quota) == cs
  {
    hide Count12, Bytes12, ListBytes;
  }

  /** The messages in flight of that client. */
  lemma AtOut(cs: seq<Context>, c: nat, l: seq<ClientMsg>, quota: nat)
    requires c < |cs|
    ensures var r := At(cs, c, Outgoing, l, quota);
            |r| == |cs| && r[c].msgsOut.inflight == l && r[c].msgsOut.quota == quota
  {
    hide Relist;
  }

  lemma OutStart(cs: seq<Context>, c: nat)
    requires c < |cs|
    ensures At(cs, c, Outgoing, cs[c].msgsOut.inflight, cs[c].msgsOut.quota) == cs
  {
    AtStart(cs, c, Outgoing);
  }

  lemma AtRemove(cs: seq<Context>, c: nat, dir: Direction, l: seq<ClientMsg>, quota: nat, i: nat)
    requires c < |cs| && i < |l|
    ensures var cur := At(cs, c, dir, l, quota);
            var md := Md(cur[c], dir);
            Put(cur, c, dir, Relist(md, Without(l, i), md.queued)) == At(cs, c, dir, Without(l, i), quota)
  {
    hide Count12, Bytes12, ListBytes, Without;
  }

  /** Changing what delivery may change of a message, and the quota. */
  lemma AtSet(cs: seq<Context>, c: nat, dir: Direction, l: seq<ClientMsg>, quota: nat, i: nat, m: ClientMsg, q: nat)
    requires c < |cs| && i < |l| && Bare(m) == Bare(l[i])
    ensures var cur := At(cs, c, dir, l, quota);
            Put(cur, c, dir, Md(cur[c], dir).(inflight := l[i := m], quota := q)) == At(cs, c, dir, l[i := m], q)
  {
    hide Count12, Bytes12, ListBytes;
    assert BareAll(l[i := m]) == BareAll(l);
    hide BareAll, Relist;
    var md := Md(cs[c], dir);
    Flow.RelistSame(md, l[i := m], l, md.queued);
  }

  lemma {:induction false} UpdateRefs(cs: seq<Context>, c: nat, dir: Direction, md: MsgData)
    requires c < |cs|
    ensures AllRefs(Put(cs, c, dir, md)) + MdRefs(Md(cs[c], dir)) == AllRefs(cs) + MdRefs(md)
  {
    hide AllRefs, MdRefs, ContextRefs, WithMd, Md;
    var d := WithMd(cs[c], dir, md);
    WithMdRefs(cs[c], dir, md);
    AllRefsUpdate(cs, c, d);
    Balance(AllRefs(cs[c := d]), ContextRefs(cs[c]), AllRefs(cs), ContextRefs(d), MdRefs(Md(cs[c], dir)), MdRefs(md));
  }

  lemma SameRefs(cs: seq<Context>, c: nat, dir: Direction, md: MsgData)
    requires c < |cs| && MdRefs(md) == MdRefs(Md(cs[c], dir))
    ensures AllRefs(Put(cs, c, dir, md)) == AllRefs(cs)
  {
    hide AllRefs, MdRefs, Put, Md;
    UpdateRefs(cs, c, dir, md);
    var x, m := AllRefs(Put(cs, c, dir, md)), MdRefs(md);
    forall t ensures x[t] == AllRefs(cs)[t] {
      assert (x + m)[t] == (AllRefs(cs) + m)[t];
    }
  }

  lemma {:induction false} OneRefLess(cs: seq<Context>, c: nat, dir: Direction, md: MsgData, s: Stored)
    requires c < |cs| && MdRefs(Md(cs[c], dir)) == MdRefs(md) + multiset{s}
    ensures AllRefs(Put(cs, c, dir, md)) + multiset{s} == AllRefs(cs)
  {
    hide AllRefs, MdRefs, Put, Md;
    UpdateRefs(cs, c, dir, md);
    var x, m := AllRefs(Put(cs, c, dir, md)), MdRefs(md);
    assert x + (m + multiset{s}) == AllRefs(cs) + m;
    forall t ensures (x + multiset{s})[t] == AllRefs(cs)[t] {
      assert (x + (m + multiset{s}))[t] == (AllRefs(cs) + m)[t];
    }
  }

  lemma AckedNone(mid: Word16, awaited: MsgState, qos: Qos)
    ensures Flow.Acked([], mid, awaited, qos) == ([], true)
  {}

  lemma Balance<T>(x: multiset<T>, c: multiset<T>, y: multiset<T>, d: multiset<T>, m: multiset<T>, n: multiset<T>)
    requires x + c == y + d && d + m == c + n
    ensures x + m == y + n
  {
    forall t ensures (x + m)[t] == (y + n)[t] {
      assert (x + c)[t] == (y + d)[t] && (d + m)[t] == (c + n)[t];
    }
  }

  lemma ShrunkNothing(list: seq<Stored>, refs: multiset<Stored>)
    ensures Shrunk(list, list, refs, refs)
  {}

  /** The acknowledgement loop at position `i`. */
  lemma AckStep(l: seq<ClientMsg>, i: nat, mid: Word16, awaited: MsgState, qos: Qos)
    requires i < |l|
    ensures var here := Flow.Acked(l[i..], mid, awaited, qos);
            var next := Flow.Acked(l[i + 1..], mid, awaited, qos);
            if l[i].mid != mid then l[..i] + here.0 == l[..i + 1] + next.0 && here.1 == next.1
            else if l[i].qos != qos || (qos == 2 && l[i].state != awaited) then l[..i] + here.0 == l && !here.1
            else here == next
    ensures Without(l, i)[..i] == l[..i] && Without(l, i)[i..] == l[i + 1..]
  {
    assert l[i..][0] == l[i] && l[i..][1..] == l[i + 1..];
    assert l[..i + 1] == l[..i] + [l[i]];
  }

  lemma NothingReferenced(refCount: map<Stored, int>)
    ensures Referenced([], refCount) == []
  {}

  lemma CompactStep(l: seq<Stored>, i: nat, refCount: map<Stored, int>)
    requires i < |l| && l[i] in refCount
    ensures refCount[l[i]] >= 1 ==> l[..i] + Referenced(l[i..], refCount) == l[..i + 1] + Referenced(l[i + 1..], refCount)
    ensures refCount[l[i]] < 1 ==>
      l[..i] + Referenced(l[i..], refCount) == Without(l, i)[..i] + Referenced(Without(l, i)[i..], refCount)
  {
    assert l[i..][1..] == l[i + 1..] && l[i..][0] == l[i];
    if refCount[l[i]] >= 1 {
      assert l[..i + 1] == l[..i] + [l[i]];
    } else {
      assert Without(l, i)[..i] == l[..i] && Without(l, i)[i..] == l[i + 1..];
    }
  }

  /** With right counts, what compacting leaves is what is referred to. */
  lemma CompactLeaves(l: seq<Stored>, refCount: map<Stored, int>, refs: multiset<Stored>)
    requires forall s :: s in l ==> s in refCount && refCount[s] == refs[s]
    requires forall s :: s in refs ==> s in l
    ensures forall s :: s in Referenced(l, refCount) <==> s in refs
  {
    forall s ensures s in Referenced(l, refCount) <==> s in refs {
      ReferencedIn(l, refCount, s);
    }
  }

  lemma BookedFacts(list: seq<Stored>, refCount: map<Stored, int>, count: int, bytes: int, lastId: nat, refs: multiset<Stored>)
    requires Booked(list, refCount, count, bytes, lastId, refs)
    ensures forall s :: s in list ==> s in refCount && refCount[s] == refs[s]
    ensures forall s :: s in refs ==> s in list
  {
    hide SumLen;
  }
}
