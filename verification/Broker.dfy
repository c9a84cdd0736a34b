/** The broker's message store (`database.c`): stored messages with reference counts, shared by the
    message lists of all clients and by the retained messages, and the operations on them, loop by
    loop and in place. Each method states what it leaves of the clients' lists as a function of
    what was there, and keeps the books of `BrokerBooks`; `Step` and `Run` put the operations
    together and are proved to run like the machine of `BrokerMachine`. */
module Broker {
  import opened Basics
  import opened BrokerSpec
  import opened BrokerBooks
  import opened BrokerMachine
  import opened BrokerStates
  import Flow = BrokerFlow

  class Database {
    const limits: Limits
    var list: seq<Stored>
    var refCount: map<Stored, int>
    var storeCount: int
    var storeBytes: int
    var lastId: nat
    var contexts: seq<Context>
    var retained: seq<Option<Stored>>
    /** Which messages were handed out under which client identifiers. */
    var dests: set<(Stored, nat)>

    /** References that running code holds while it hands a message out. */
    ghost var held: multiset<Stored>

    ghost function Refs(): multiset<Stored>
      reads this`contexts, this`retained, this`held
    {
      AllRefs(contexts) + RetainedRefs(retained) + held
    }

    /** The part of the state that the operations are a machine on. */
    ghost function Abs(): Machine
      reads this`contexts, this`dests, this`retained, this`lastId
    {
      Machine(contexts, dests, retained, lastId)
    }

    ghost predicate Books()
      reads this
    {
      Booked(list, refCount, storeCount, storeBytes, lastId, Refs())
    }

    /** The books are right but for one more reference to `s`, just taken or about to be given up. */
    ghost predicate BooksAnd(s: Stored)
      reads this
    {
      Booked(list, refCount, storeCount, storeBytes, lastId, Refs() + multiset{s})
    }

    ghost predicate Counted()
      reads this
    {
      forall i :: 0 <= i < |contexts| ==> ContextCounted(contexts[i])
    }

    ghost predicate Valid()
      reads this
    {
      Books() && Counted()
    }

    /** `db__open`, with a place for the retained message of each of so many topics. */
    constructor (limits: Limits, topics: nat)
      ensures Valid() && held == multiset{}
      ensures this.limits == limits && list == [] && contexts == [] && |retained| == topics
    {
      this.limits := limits;
      list, refCount, storeCount, storeBytes, lastId := [], map[], 0, 0, 0;
      contexts, dests, held := [], {}, multiset{};
      retained := seq(topics, _ => None);
      new;
      NothingRetained(retained);
    }

    // ---------- The store ----------

    /** `db__msg_store_remove` */
    method StoreRemove(i: nat, ghost refs: multiset<Stored>)
      requires Booked(list, refCount, storeCount, storeBytes, lastId, refs)
      requires i < |list| && list[i] !in refs
      modifies this`list, this`refCount, this`storeCount, this`storeBytes
      ensures list == Without(old(list), i) && refCount == old(refCount) - {old(list)[i]}
      ensures storeCount == old(storeCount) - 1 && storeBytes == old(storeBytes) - old(list)[i].payloadLen
      ensures Booked(list, refCount, storeCount, storeBytes, lastId, refs)
      ensures forall s :: s in list <==> s in old(list) && s != old(list)[i]
    {
      BookedWithout(list, refCount, storeCount, storeBytes, lastId, refs, i);
      var s := list[i];
      list := Without(list, i);
      refCount := refCount - {s};
      storeCount := storeCount - 1;
      storeBytes := storeBytes - s.payloadLen;
    }

    /** `db__msg_store_ref_inc` */
    method RefInc(s: Stored)
      requires Books() && s in list
      modifies this`refCount
      ensures BooksAnd(s)
    {
      hide Booked, Refs;
      BookedInc(list, refCount, storeCount, storeBytes, lastId, Refs(), s);
      refCount := refCount[s := refCount[s] + 1];
    }

    /** `db__msg_store_ref_dec`: the message leaves the store exactly with its last reference. */
    method RefDec(s: Stored)
      requires BooksAnd(s)
      modifies this`list, this`refCount, this`storeCount, this`storeBytes
      ensures Books()
      ensures Shrunk(old(list), list, Refs() + multiset{s}, Refs())
      ensures s in Refs() ==> list == old(list)
    {
      hide Booked, Refs;
      BookedDec(list, refCount, storeCount, storeBytes, lastId, Refs(), s);
      refCount := refCount[s := refCount[s] - 1];
      if refCount[s] == 0 {
        var i :| 0 <= i < |list| && list[i] == s;
        StoreRemove(i, Refs());
      }
    }

    /** `db__message_store`: a new message at the head of the list, with no references yet. */
    method MessageStore(sourceMid: Word16, hasTopic: bool, qos: Qos, payloadLen: nat, expiryInterval: nat, now: nat)
      returns (s: Stored)
      requires Valid()
      modifies this`list, this`refCount, this`storeCount, this`storeBytes, this`lastId
      ensures Valid() && lastId == old(lastId) + 1
      ensures s == Stored(lastId, payloadLen, qos, sourceMid, hasTopic, if expiryInterval > 0 then now + expiryInterval else 0)
      ensures s !in old(list) && list == [s] + old(list)
      ensures refCount == old(refCount)[s := 0] && storeBytes == old(storeBytes) + payloadLen
    {
      hide Refs, ContextCounted, Booked;
      var expiryTime := if expiryInterval > 0 then now + expiryInterval else 0;
      storeCount := storeCount + 1;
      storeBytes := storeBytes + payloadLen;
      lastId := lastId + 1;
      s := Stored(lastId, payloadLen, qos, sourceMid, hasTopic, expiryTime);
      BookedAdd(list, refCount, old(storeCount), old(storeBytes), old(lastId), Refs(), s);
      list := [s] + list;
      refCount := refCount[s := 0];
    }

    /** `db__msg_store_compact`: exactly the messages without references go. */
    method StoreCompact()
      requires Valid()
      modifies this`list, this`refCount, this`storeCount, this`storeBytes
      ensures Valid()
      ensures list == Referenced(old(list), old(refCount))
      ensures forall s :: s in list <==> s in Refs()
    {
      hide Booked, AllRefs, RetainedRefs, ContextCounted, Referenced;
      ghost var refs := Refs();
      BookedFacts(list, refCount, storeCount, storeBytes, lastId, refs);
      assert list[..0] == [] && list[0..] == list;
      var i := 0;
      while i < |list|
        invariant i <= |list|
        invariant Booked(list, refCount, storeCount, storeBytes, lastId, refs)
        invariant forall s :: s in list ==> s in refCount && s in old(refCount) && refCount[s] == old(refCount)[s] == refs[s]
        invariant Referenced(old(list), old(refCount)) == list[..i] + Referenced(list[i..], old(refCount))
        decreases |list| - i
      {
        CompactStep(list, i, old(refCount));
        if refCount[list[i]] < 1 {
          StoreRemove(i, refs);
        } else {
          i := i + 1;
        }
      }
      assert list[..i] == list && list[i..] == [];
      NothingReferenced(old(refCount));
      CompactLeaves(old(list), old(refCount), refs);
    }

    // ---------- Message lists ----------

    /** Changes one direction of a client without changing what it refers to. */
    method Update(c: nat, dir: Direction, md: MsgData)
      requires Books() && c < |contexts| && MdRefs(md) == MdRefs(Md(contexts[c], dir))
      modifies this`contexts
      ensures Books() && Refs() == old(Refs())
      ensures contexts == Put(old(contexts), c, dir, md)
    {
      hide AllRefs, RetainedRefs, MdRefs, Booked;
      SameRefs(contexts, c, dir, md);
      contexts := Put(contexts, c, dir, md);
    }

    /** Takes a message out of a client's list and gives up its reference. */
    method Drop(c: nat, dir: Direction, md: MsgData, s: Stored)
      requires Books() && c < |contexts| && MdRefs(Md(contexts[c], dir)) == MdRefs(md) + multiset{s}
      modifies this`list, this`refCount, this`storeCount, this`storeBytes, this`contexts
      ensures Books()
      ensures contexts == Put(old(contexts), c, dir, md)
      ensures Shrunk(old(list), list, old(Refs()), Refs())
    {
      hide AllRefs, RetainedRefs, MdRefs, Booked, Shrunk;
      OneRefLess(contexts, c, dir, md, s);
      contexts := Put(contexts, c, dir, md);
      assert Refs() + multiset{s} == AllRefs(contexts) + multiset{s} + RetainedRefs(retained) + held;
      RefDec(s);
    }

    /** `db__message_remove` */
    method MessageRemove(c: nat, dir: Direction, i: nat)
      requires Books() && c < |contexts| && i < |Md(contexts[c], dir).inflight|
      modifies this`list, this`refCount, this`storeCount, this`storeBytes, this`contexts
      ensures Books()
      ensures var md := Md(old(contexts)[c], dir);
              contexts == Put(old(contexts), c, dir, Relist(md, Without(md.inflight, i), md.queued))
      ensures Shrunk(old(list), list, old(Refs()), Refs())
    {
      hide MdRefs, Books, Refs, Shrunk;
      var md := Md(contexts[c], dir);
      RemoveIsRelist(md, i);
      Drop(c, dir, RemoveInflight(md, i), md.inflight[i].store);
    }

    /** `db__message_remove` in a loop that started from the clients `cs`. */
    method RemoveAt(c: nat, dir: Direction, i: nat, ghost cs: seq<Context>, ghost l: seq<ClientMsg>, ghost q: nat,
                    ghost list0: seq<Stored>, ghost refs0: multiset<Stored>)
      requires Books() && c < |cs| && i < |l| && contexts == At(cs, c, dir, l, q) && Shrunk(list0, list, refs0, Refs())
      modifies this`list, this`refCount, this`storeCount, this`storeBytes, this`contexts
      ensures Books() && contexts == At(cs, c, dir, Without(l, i), q) && Shrunk(list0, list, refs0, Refs())
    {
      hide Books, Refs, Shrunk, At, Without, Relist, Put;
      ghost var was, refs := list, Refs();
      AtRemove(cs, c, dir, l, q, i);
      MessageRemove(c, dir, i);
      ShrunkTrans(list0, was, list, refs0, refs, Refs());
    }

    /** Changes a message in flight, and the quota, in such a loop. */
    method SetAt(c: nat, dir: Direction, i: nat, m: ClientMsg, quota: nat, ghost cs: seq<Context>, ghost l: seq<ClientMsg>, ghost q: nat)
      requires Books() && c < |cs| && i < |l| && contexts == At(cs, c, dir, l, q) && Bare(m) == Bare(l[i])
      modifies this`contexts
      ensures Books() && Refs() == old(Refs()) && contexts == At(cs, c, dir, l[i := m], quota)
    {
      hide Books, Refs, At, Relist, Put, Bare;
      AtSet(cs, c, dir, l, q, i, m, quota);
      SetMessage(c, dir, i, m, quota);
    }

    /** The first loop of `db__message_delete_outgoing`. */
    method Acknowledge(c: nat, mid: Word16, awaited: MsgState, qos: Qos) returns (rc: Rc)
      requires Books() && c < |contexts|
      modifies this`list, this`refCount, this`storeCount, this`storeBytes, this`contexts
      ensures Books()
      ensures var md := old(contexts)[c].msgsOut;
              var r := Flow.Acked(md.inflight, mid, awaited, qos);
              rc == (if r.1 then Success else Protocol) &&
              contexts == At(old(contexts), c, Outgoing, r.0, md.quota)
      ensures Shrunk(old(list), list, old(Refs()), Refs())
    {
      hide Books, Refs, Shrunk, At, Flow.Acked, Without, Relist;
      ghost var cs := contexts;
      ghost var md := contexts[c].msgsOut;
      ghost var acked := Flow.Acked(md.inflight, mid, awaited, qos);
      AtStart(cs, c, Outgoing);
      ShrunkNothing(list, Refs());
      assert md.inflight[..0] == [] && md.inflight[0..] == md.inflight && [] + acked.0 == acked.0;
      var i := 0;
      ghost var l := md.inflight;
      while i < |contexts[c].msgsOut.inflight|
        invariant |contexts| == |cs| && l == contexts[c].msgsOut.inflight && i <= |l|
        invariant Books() && contexts == At(cs, c, Outgoing, l, md.quota)
        invariant acked.0 == l[..i] + Flow.Acked(l[i..], mid, awaited, qos).0
        invariant acked.1 == Flow.Acked(l[i..], mid, awaited, qos).1
        invariant Shrunk(old(list), list, old(Refs()), Refs())
        decreases |contexts[c].msgsOut.inflight| - i
      {
        var tail := contexts[c].msgsOut.inflight[i];
        AckStep(l, i, mid, awaited, qos);
        if tail.mid == mid {
          if tail.qos != qos || (qos == 2 && tail.state != awaited) {
            return Protocol;
          }
          RemoveAt(c, Outgoing, i, cs, l, md.quota, old(list), old(Refs()));
          l := Without(l, i);
        } else {
          i := i + 1;
        }
      }
      AckedNone(mid, awaited, qos);
      assert l[..i] == l && l[i..] == [] && l + [] == l;
      rc := Success;
    }

    /** Sets the state of a queued message. */
    method SetQueuedState(c: nat, dir: Direction, i: nat, state: MsgState)
      requires Books() && c < |contexts| && i < |Md(contexts[c], dir).queued|
      modifies this`contexts
      ensures Books() && Refs() == old(Refs())
      ensures contexts == Put(old(contexts), c, dir, Flow.SetQueued(Md(old(contexts)[c], dir), i, state))
    {
      hide Books, Refs, MdRefs, Lineup;
      var md := Md(contexts[c], dir);
      Flow.SetKeepsLineup(md, i, md.queued[i], state);
      SameLineupSameTotals(Flow.SetQueued(md, i, state), md);
      Update(c, dir, Flow.SetQueued(md, i, state));
    }

    /** `db__message_dequeue_first` */
    method MessageDequeueFirst(c: nat, dir: Direction)
      requires Books() && c < |contexts| && Md(contexts[c], dir).queued != []
      modifies this`contexts
      ensures Books() && Refs() == old(Refs())
      ensures contexts == Put(old(contexts), c, dir, DequeueFirst(Md(old(contexts)[c], dir)))
    {
      hide Books, Refs, MdRefs, Lineup;
      var md := Md(contexts[c], dir);
      DequeueKeeps(md);
      Update(c, dir, DequeueFirst(md));
    }

    /** The second loop of `db__message_delete_outgoing`. */
    method OpenWindow(c: nat)
      requires Books() && c < |contexts|
      modifies this`contexts
      ensures Books() && Refs() == old(Refs())
      ensures var md := old(contexts)[c].msgsOut;
              contexts == Put(old(contexts), c, Outgoing, Flow.Open(md, Flow.Room(md)))
    {
      hide Books, Refs, Put, DequeueFirst;
      ghost var cs := contexts;
      ghost var md := contexts[c].msgsOut;
      Flow.OpenNone(md);
      PutPut(cs, c, Outgoing, md, md);
      var index := |contexts[c].msgsOut.inflight|;
      ghost var k := 0;
      while contexts[c].msgsOut.queued != []
        invariant |contexts| == |cs| && k <= Flow.Room(md) && index == |md.inflight| + k
        invariant contexts == Put(cs, c, Outgoing, Flow.Open(md, k))
        invariant Books() && Refs() == old(Refs())
        decreases |md.queued| - k
      {
        if contexts[c].msgsOut.maximum != 0 && index >= contexts[c].msgsOut.maximum {
          break;
        }
        index := index + 1;
        Flow.OpenStep(md, k);
        PutPut(cs, c, Outgoing, Flow.Open(md, k), Flow.SetQueued(Flow.Open(md, k), 0, PublishState(Flow.Open(md, k).queued[0].qos)));
        SetQueuedState(c, Outgoing, 0, PublishState(contexts[c].msgsOut.queued[0].qos));
        PutPut(cs, c, Outgoing, contexts[c].msgsOut, Flow.Open(md, k + 1));
        MessageDequeueFirst(c, Outgoing);
        k := k + 1;
      }
    }

    /** `db__message_delete_outgoing` */
    method DeleteOutgoing(c: nat, mid: Word16, awaited: MsgState, qos: Qos) returns (rc: Rc)
      requires Valid() && c < |contexts|
      modifies this`list, this`refCount, this`storeCount, this`storeBytes, this`contexts
      ensures Valid()
      ensures var r := Flow.DeleteOutgoing(old(contexts)[c].msgsOut, mid, awaited, qos);
              rc == r.1 && contexts == Put(old(contexts), c, Outgoing, r.0)
      ensures Shrunk(old(list), list, old(Refs()), Refs())
    {
      hide Books, Refs, Shrunk, Put, Relist, Flow.Acked, Flow.Open, Flow.Room, DriftOf;
      ghost var md := contexts[c].msgsOut;
      ghost var cut := Relist(md, Flow.Acked(md.inflight, mid, awaited, qos).0, md.queued);
      AtIs(contexts, c, Outgoing, cut.inflight, md.quota);
      RelistDrift(md, cut.inflight);
      rc := Acknowledge(c, mid, awaited, qos);
      if rc == Success {
        PutPut(old(contexts), c, Outgoing, cut, Flow.Open(cut, Flow.Room(cut)));
        Flow.OpenKeepsDrift(cut, Flow.Room(cut));
        OpenWindow(c);
      }
      StillCounted(old(contexts), c, Outgoing, Md(contexts[c], Outgoing));
    }

    /** `db__message_update_outgoing` */
    method UpdateOutgoing(c: nat, mid: Word16, state: MsgState, qos: Qos) returns (rc: Rc)
      requires Valid() && c < |contexts|
      modifies this`contexts
      ensures Valid() && Refs() == old(Refs())
      ensures var r := Flow.UpdateOutgoing(old(contexts)[c].msgsOut, mid, state, qos);
              rc == r.1 && contexts == Put(old(contexts), c, Outgoing, r.0)
    {
      hide Books, Refs, MdRefs, Lineup, DriftOf, Put;
      var md := contexts[c].msgsOut;
      PutPut(contexts, c, Outgoing, md, md);
      var i := 0;
      while i < |md.inflight|
        invariant i <= |md.inflight|
        invariant forall k :: 0 <= k < i ==> md.inflight[k].mid != mid
      {
        if md.inflight[i].mid == mid {
          if md.inflight[i].qos != qos {
            return Protocol;
          }
          var changed := Flow.SetInflight(md, i, md.inflight[i].(state := state));
          Flow.SetKeepsLineup(md, i, md.inflight[i].(state := state), state);
          Flow.SameLineupSameDrift(changed, md);
          StillCounted(contexts, c, Outgoing, changed);
          Update(c, Outgoing, changed);
          return Success;
        }
        i := i + 1;
      }
      rc := NotFound;
    }

    /** `db__messages_delete_list` for one of the lists; the counters are left as they are. */
    method MessagesDeleteList(c: nat, dir: Direction, queued: bool)
      requires Books() && c < |contexts|
      modifies this`list, this`refCount, this`storeCount, this`storeBytes, this`contexts
      ensures Books()
      ensures var md := Md(old(contexts)[c], dir);
              contexts == Put(old(contexts), c, dir, if queued then md.(queued := []) else md.(inflight := []))
      ensures Shrunk(old(list), list, old(Refs()), Refs())
    {
      hide Books, Refs, Shrunk, MdRefs, Put;
      ghost var cs := contexts;
      PutPut(cs, c, dir, Md(cs[c], dir), Md(cs[c], dir));
      ShrunkNothing(list, Refs());
      var md := Md(contexts[c], dir);
      while (if queued then md.queued else md.inflight) != []
        invariant md == if queued then Md(cs[c], dir).(queued := md.queued) else Md(cs[c], dir).(inflight := md.inflight)
        invariant Books() && contexts == Put(cs, c, dir, md)
        invariant Shrunk(old(list), list, old(Refs()), Refs())
        decreases |md.queued| + |md.inflight|
      {
        ghost var was := list;
        ghost var refs := Refs();
        HeadRefs(md);
        var s := if queued then md.queued[0].store else md.inflight[0].store;
        var cut := if queued then md.(queued := md.queued[1..]) else md.(inflight := md.inflight[1..]);
        PutPut(cs, c, dir, md, cut);
        Drop(c, dir, cut, s);
        ShrunkTrans(old(list), was, list, old(Refs()), refs, Refs());
        md := cut;
      }
    }

    /** Both lists of one direction. */
    method MessagesDeleteLists(c: nat, dir: Direction)
      requires Books() && c < |contexts|
      modifies this`list, this`refCount, this`storeCount, this`storeBytes, this`contexts
      ensures Books()
      ensures contexts == Put(old(contexts), c, dir, Md(old(contexts)[c], dir).(inflight := [], queued := []))
      ensures Shrunk(old(list), list, old(Refs()), Refs())
    {
      hide Books, Refs, Shrunk, Put;
      ghost var md := Md(contexts[c], dir);
      MessagesDeleteList(c, dir, false);
      ghost var was, refs := list, Refs();
      PutPut(old(contexts), c, dir, md.(inflight := []), md.(inflight := [], queued := []));
      MessagesDeleteList(c, dir, true);
      ShrunkTrans(old(list), was, list, old(Refs()), refs, Refs());
    }

    /** `db__messages_delete` */
    method MessagesDelete(c: nat)
      requires Valid() && c < |contexts|
      modifies this`list, this`refCount, this`storeCount, this`storeBytes, this`contexts
      ensures Valid()
      ensures contexts == old(contexts)[c := Flow.Emptied(old(contexts)[c])]
      ensures Shrunk(old(list), list, old(Refs()), Refs())
    {
      hide Books, Refs, Shrunk, MdRefs, ContextCounted, Put;
      ghost var cs := contexts;
      MessagesDeleteLists(c, Incoming);
      ghost var was, refs := list, Refs();
      MessagesDeleteLists(c, Outgoing);
      ShrunkTrans(old(list), was, list, old(Refs()), refs, Refs());
      NoRefs(contexts[c].msgsIn, Flow.Cleared(contexts[c].msgsIn));
      NoRefs(contexts[c].msgsOut, Flow.Cleared(contexts[c].msgsOut));
      Update(c, Incoming, Flow.Cleared(contexts[c].msgsIn));
      Update(c, Outgoing, Flow.Cleared(contexts[c].msgsOut));
      Flow.EmptiedCounted(cs[c]);
      assert contexts[c] == Flow.Emptied(cs[c]);
    }

    /** `db__message_store_find`: the first message received with this id, looking at those in flight first. */
    method MessageStoreFind(c: nat, mid: Word16) returns (found: Option<Stored>)
      requires Valid() && c < |contexts|
      ensures var l := contexts[c].msgsIn.inflight + contexts[c].msgsIn.queued;
              (found.None? <==> forall i :: 0 <= i < |l| ==> l[i].store.sourceMid != mid) &&
              found == FirstFrom(l, mid) &&
              (found.Some? ==> exists i :: 0 <= i < |l| && l[i].store == found.value && found.value.sourceMid == mid &&
                                           forall k :: 0 <= k < i ==> l[k].store.sourceMid != mid)
    {
      hide *;
      var a, b := contexts[c].msgsIn.inflight, contexts[c].msgsIn.queued;
      ghost var l := a + b;
      var i := 0;
      while i < |a|
        invariant i <= |a| && forall k :: 0 <= k < i ==> l[k].store.sourceMid != mid
      {
        if a[i].store.sourceMid == mid {
          assert l[i] == a[i];
          FirstFromIs(l, mid, i);
          return Some(a[i].store);
        }
        i := i + 1;
      }
      i := 0;
      while i < |b|
        invariant i <= |b| && forall k :: 0 <= k < |a| + i ==> l[k].store.sourceMid != mid
      {
        assert l[|a| + i] == b[i];
        if b[i].store.sourceMid == mid {
          FirstFromIs(l, mid, |a| + i);
          return Some(b[i].store);
        }
        i := i + 1;
      }
      FirstFromIs(l, mid, |l|);
      found := None;
    }

    /** The queue loop of both `db__message_reconnect_reset_*`. */
    method Requeue(c: nat, dir: Direction)
      requires Books() && c < |contexts|
      modifies this`contexts
      ensures Books() && Refs() == old(Refs())
      ensures contexts == Put(old(contexts), c, dir, Flow.Requeue(limits, Md(old(contexts)[c], dir), 0))
    {
      hide Books, Refs, MdRefs, ReadyForFlight, Put, DequeueFirst, Flow.Requeue;
      ghost var cs := contexts;
      var md := Md(contexts[c], dir);
      ghost var goal := Flow.Requeue(limits, md, 0);
      PutPut(cs, c, dir, md, md);
      var i := 0;
      while i < |md.queued|
        invariant i <= |md.queued| && Books() && Refs() == old(Refs())
        invariant contexts == Put(cs, c, dir, md) && goal == Flow.Requeue(limits, md, i)
        decreases |md.queued| - i
      {
        Flow.RequeueStep(limits, md, i);
        var m := md.queued[i];
        PutPut(cs, c, dir, md, Flow.Count(md, m));
        Update(c, dir, Flow.Count(md, m));
        md := Md(contexts[c], dir);
        if ReadyForFlight(limits, md, m.qos) {
          PutPut(cs, c, dir, md, Flow.SetQueued(md, i, PublishState(m.qos)));
          SetQueuedState(c, dir, i, PublishState(m.qos));
          md := Md(contexts[c], dir);
          PutPut(cs, c, dir, md, DequeueFirst(md));
          MessageDequeueFirst(c, dir);
          Flow.DequeuedOne(md);
          md := Md(contexts[c], dir);
        } else {
          i := i + 1;
        }
      }
      Flow.RequeueEnd(limits, md);
    }

    /** The first loop of `db__message_reconnect_reset_outgoing`, with the resets before it. */
    method ResetInflightOut(c: nat)
      requires Books() && c < |contexts|
      modifies this`contexts
      ensures Books() && Refs() == old(Refs()) && |contexts| == |old(contexts)|
      ensures forall j :: 0 <= j < |contexts| && j != c ==> contexts[j] == old(contexts)[j]
      ensures contexts[c] == Flow.ResetPart(old(contexts)[c], |old(contexts)[c].msgsOut.inflight|)
    {
      hide Books, Refs, MdRefs, Put, Flow.ResetPart, Flow.Tally, Flow.ResetState, Flow.SetInflight, Flow.Less;
      ghost var ctx := contexts[c];
      var md := contexts[c].msgsOut;
      Flow.ResetPartStart(ctx);
      Update(c, Outgoing, Flow.Tally(md, []).(inflight := md.inflight, quota := md.maximum));
      var i := 0;
      while i < |md.inflight|
        invariant i <= |md.inflight| && Books() && Refs() == old(Refs()) && |contexts| == |old(contexts)|
        invariant forall j :: 0 <= j < |contexts| && j != c ==> contexts[j] == old(contexts)[j]
        invariant contexts[c] == Flow.ResetPart(ctx, i)
      {
        Flow.ResetPartStep(ctx, i);
        var m := contexts[c].msgsOut.inflight[i];
        Update(c, Outgoing, Flow.SetInflight(Flow.Count(contexts[c].msgsOut, m), i, Flow.ResetState(m)));
        if m.qos > 0 {
          Update(c, Incoming, contexts[c].msgsIn.(quota := Flow.Less(contexts[c].msgsIn.quota, 1)));
        }
        i := i + 1;
      }
    }

    /** `db__message_reconnect_reset_outgoing` */
    method ReconnectResetOutgoing(c: nat)
      requires Books() && c < |contexts|
      modifies this`contexts
      ensures Books() && Refs() == old(Refs())
      ensures contexts == old(contexts)[c := Flow.ResetOutgoing(limits, old(contexts)[c])]
    {
      hide Books, Refs, Flow.Requeue, Flow.ResetPart, Flow.ResetOutgoing;
      Flow.ResetPartEnd(limits, contexts[c]);
      ResetInflightOut(c);
      Requeue(c, Outgoing);
    }

    /** The first loop of `db__message_reconnect_reset_incoming`, with the resets before it. */
    method ResetInflightIn(c: nat)
      requires Books() && c < |contexts|
      modifies this`list, this`refCount, this`storeCount, this`storeBytes, this`contexts
      ensures Books()
      ensures contexts == Put(old(contexts), c, Incoming, Flow.InPart(old(contexts)[c].msgsIn, |old(contexts)[c].msgsIn.inflight|))
      ensures Shrunk(old(list), list, old(Refs()), Refs())
    {
      hide Books, Refs, MdRefs, Put, Flow.InPart, Shrunk, Flow.Less, Relist, Flow.Tally;
      ghost var md := contexts[c].msgsIn;
      Flow.InPartStart(md);
      ShrunkNothing(list, Refs());
      Update(c, Incoming, Flow.Tally(contexts[c].msgsIn, []).(inflight := contexts[c].msgsIn.inflight, quota := contexts[c].msgsIn.maximum));
      var i := 0;
      ghost var p := 0;
      while i < |contexts[c].msgsIn.inflight|
        invariant p <= |md.inflight| && Books() && |contexts| == |old(contexts)|
        invariant contexts == Put(old(contexts), c, Incoming, Flow.InPart(md, p))
        invariant i == |Flow.Qos2Only(md.inflight[..p])| && |contexts[c].msgsIn.inflight| - i == |md.inflight| - p
        invariant Shrunk(old(list), list, old(Refs()), Refs())
        decreases |md.inflight| - p
      {
        Flow.InPartStep(md, p);
        var m := contexts[c].msgsIn.inflight[i];
        var counted := Flow.CountIn(contexts[c].msgsIn, m);
        PutPut(old(contexts), c, Incoming, contexts[c].msgsIn, counted);
        Update(c, Incoming, counted);
        if m.qos != 2 {
          ghost var was, refs := list, Refs();
          RemoveIsRelist(counted, i);
          PutPut(old(contexts), c, Incoming, counted, RemoveInflight(counted, i));
          MessageRemove(c, Incoming, i);
          ShrunkTrans(old(list), was, list, old(Refs()), refs, Refs());
        } else {
          i := i + 1;
        }
        p := p + 1;
      }
    }

    /** `db__message_reconnect_reset_incoming` */
    method ReconnectResetIncoming(c: nat)
      requires Books() && c < |contexts|
      modifies this`list, this`refCount, this`storeCount, this`storeBytes, this`contexts
      ensures Books()
      ensures contexts == old(contexts)[c := Flow.ResetIncoming(limits, old(contexts)[c])]
      ensures Shrunk(old(list), list, old(Refs()), Refs())
    {
      hide Books, Refs, Flow.Requeue, Flow.InPart, Flow.ResetIncoming, Shrunk;
      Flow.InPartEnd(limits, contexts[c]);
      ResetInflightIn(c);
      Requeue(c, Incoming);
    }

    /** `db__message_reconnect_reset`: the counters are exact afterwards, whatever they were. */
    method ReconnectReset(c: nat)
      requires Books() && c < |contexts|
      modifies this`list, this`refCount, this`storeCount, this`storeBytes, this`contexts
      ensures Books()
      ensures contexts == old(contexts)[c := Flow.ResetIncoming(limits, Flow.ResetOutgoing(limits, old(contexts)[c]))]
      ensures CountersOk(contexts[c].msgsIn, true) && CountersOk(contexts[c].msgsOut, true)
      ensures Shrunk(old(list), list, old(Refs()), Refs())
    {
      hide Books, Refs, Flow.ResetIncoming, Flow.ResetOutgoing, Shrunk, CountersOk;
      Flow.ResetOutgoingRestores(limits, contexts[c]);
      Flow.ResetIncomingRestores(limits, Flow.ResetOutgoing(limits, contexts[c]));
      ReconnectResetOutgoing(c);
      ReconnectResetIncoming(c);
    }

    // ---------- Handing messages out ----------

    /** The first part of `db__message_insert`: whether the message is taken, and in which state. */
    method Decide(c: nat, dir: Direction, qos: Qos, retain: bool, s: Stored) returns (a: Flow.Admission)
      requires c < |contexts|
      ensures a == Flow.Admittance(limits, contexts[c], dir, qos, retain, (s, contexts[c].id) in dests)
    {
      hide ReadyForFlight, ReadyForQueue;
      var context := contexts[c];
      var md := Md(context, dir);
      if !context.hasId {
        return Flow.Refuse(0);
      }
      if !context.v5 && !limits.allowDuplicates && dir.Outgoing? && !retain && (s, context.id) in dests {
        return Flow.Refuse(0);
      }
      if !context.connected && qos == 0 && !limits.queueQos0 && !context.lazyBridge {
        return Flow.Refuse(2);
      }
      if context.connected {
        if ReadyForFlight(limits, md, qos) {
          if dir.Outgoing? {
            a := Flow.Admit(PublishState(qos), 0);
          } else if qos == 2 {
            a := Flow.Admit(WaitForPubrel, 0);
          } else {
            a := Flow.Refuse(1);
          }
        } else if ReadyForQueue(limits, context, qos, md) {
          a := Flow.Admit(QueuedState, 2);
        } else {
          a := Flow.Refuse(2);
        }
      } else {
        if ReadyForQueue(limits, context, qos, md) {
          a := Flow.Admit(QueuedState, 0);
        } else {
          a := Flow.Refuse(2);
        }
      }
    }

    /** `db__message_insert` */
    method MessageInsert(c: nat, mid: Word16, dir: Direction, qos: Qos, retain: bool, s: Stored) returns (rc: nat)
      requires Books() && c < |contexts| && s in list
      modifies this`refCount, this`contexts, this`dests
      ensures Books()
      ensures var a := Flow.Admittance(limits, old(contexts)[c], dir, qos, retain, (s, old(contexts)[c].id) in old(dests));
              rc == a.rc &&
              if a.Refuse? then contexts == old(contexts) && dests == old(dests)
              else contexts == old(contexts)[c := Flow.Delivered(old(contexts)[c], dir, mid, qos, retain, s, a.state)] &&
                   dests == Flow.Noted(limits, dir, retain, old(dests), s, old(contexts)[c].id) && Refs() == old(Refs()) + multiset{s}
      // flow control: a used up quota keeps the message out of the flight, and quota keeps it out of the queue
      ensures dir.Outgoing? && qos > 0 && old(contexts)[c].msgsOut.maximum != 0 ==>
                |contexts| == |old(contexts)| &&
                var was, now := old(contexts)[c].msgsOut, contexts[c].msgsOut;
                (was.quota == 0 ==> now.inflight == was.inflight) &&
                (old(contexts)[c].connected && was.quota > 0 && limits.maxInflightBytes == 0 ==> now.queued == was.queued)
    {
      hide Booked, AllRefs, RetainedRefs, ContextRefs, Flow.Admittance, Flow.Delivered;
      if dir.Outgoing? && qos > 0 && contexts[c].msgsOut.maximum != 0 {
        Flow.InsertFlow(limits, contexts[c], mid, qos, retain, s, (s, contexts[c].id) in dests);
      }
      var a := Decide(c, dir, qos, retain, s);
      if a.Refuse? {
        return a.rc;
      }
      rc := a.rc;
      var id := contexts[c].id;
      RefInc(s);
      var delivered := Flow.Delivered(contexts[c], dir, mid, qos, retain, s, a.state);
      Flow.DeliveredRefs(contexts[c], dir, mid, qos, retain, s, a.state);
      OneRefMore(contexts, c, delivered, s);
      Shuffle(AllRefs(contexts[c := delivered]), AllRefs(contexts), s, RetainedRefs(retained), held);
      contexts := contexts[c := delivered];
      if !limits.allowDuplicates && dir.Outgoing? && !retain {
        dests := dests + {(s, id)};
      }
    }

    method RetainedDrop(topic: nat)
      requires Books() && topic < |retained| && retained[topic].Some?
      modifies this`list, this`refCount, this`storeCount, this`storeBytes, this`retained
      ensures Books()
      ensures retained == old(retained)[topic := None]
      ensures Shrunk(old(list), list, old(Refs()), Refs())
    {
      hide Booked, AllRefs, RetainedRefs, Shrunk;
      var was := retained[topic].value;
      RetainedRefsUpdate(retained, topic, None);
      retained := retained[topic := None];
      assert Refs() + multiset{was} == old(Refs()) by { Shuffle(RetainedRefs(old(retained)), RetainedRefs(retained), was, AllRefs(contexts), held); }
      RefDec(was);
    }

    method RetainedSet(topic: nat, s: Stored)
      requires Books() && topic < |retained| && retained[topic].None? && s in list
      modifies this`refCount, this`retained
      ensures Books() && Refs() == old(Refs()) + multiset{s}
      ensures retained == old(retained)[topic := Some(s)]
    {
      hide Booked, AllRefs, RetainedRefs;
      RefInc(s);
      RetainedRefsUpdate(retained, topic, Some(s));
      retained := retained[topic := Some(s)];
      assert Refs() == old(Refs()) + multiset{s} by { Shuffle(RetainedRefs(retained), RetainedRefs(old(retained)), s, AllRefs(contexts), held); }
    }

    /** `subs__process`: the retained message of a topic is replaced by `s`, or removed if `s` is empty. */
    method Retain(topic: nat, s: Stored)
      requires Books() && topic < |retained| && s in held && s in list
      modifies this`list, this`refCount, this`storeCount, this`storeBytes, this`retained
      ensures Books() && s in list
      ensures retained == old(retained)[topic := if s.payloadLen > 0 then Some(s) else None]
      ensures OthersShrunk(old(list), list, old(Refs()), Refs(), s)
    {
      hide Books, AllRefs, RetainedRefs, Shrunk, OthersShrunk;
      OthersShrunkNothing(list, Refs(), s);
      if retained[topic].Some? {
        RetainedDrop(topic);
        assert s in Refs();
        HeldStays(old(list), list, old(Refs()), Refs(), s);
      }
      if s.payloadLen > 0 {
        OthersShrunkMore(old(list), list, old(Refs()), Refs(), s);
        RetainedSet(topic, s);
      }
    }

    /** Whether the books name `s` as one of the messages that code holds. */
    ghost predicate Holds(s: Stored)
      reads this
    {
      Books() && s in list && s in held
    }

    /** `sub__messages_queue`: the message is held while it is handed to clients and retained for topics.
        Afterwards it is in the store exactly if somebody refers to it. */
    method MessagesQueue(s: Stored, ds: seq<Flow.Delivery>)
      requires Valid() && s in list
      modifies this`list, this`refCount, this`storeCount, this`storeBytes, this`retained, this`contexts, this`dests, this`held
      ensures Valid() && held == old(held)
      ensures (contexts, dests) == Flow.Handed(limits, old(contexts), old(dests), s, ds)
      ensures retained == AfterRetains(old(retained), s, ds)
      ensures s in list <==> s in Refs()
      ensures OthersShrunk(old(list), list, old(Refs()), Refs(), s)
    {
      hide Books, Refs, OthersShrunk, ContextCounted, Flow.Handed, AfterRetains, Shrunk;
      OthersShrunkNothing(list, Refs() + multiset{s}, s);
      ghost var refs := Refs();
      Take(s);
      HandOut(s, ds);
      ghost var l := list;
      LetGo(s);
      LastGone(old(list), l, list, refs, Refs(), s);
    }

    /** Holds the message besides the other references. */
    method Take(s: Stored)
      requires Books() && s in list
      modifies this`refCount, this`held
      ensures Holds(s) && Refs() == old(Refs()) + multiset{s} && held == old(held) + multiset{s}
    {
      hide Booked, AllRefs, RetainedRefs;
      RefInc(s);
      held := held + multiset{s};
      assert Refs() == old(Refs()) + multiset{s};
    }

    method LetGo(s: Stored)
      requires Holds(s)
      modifies this`list, this`refCount, this`storeCount, this`storeBytes, this`held
      ensures Books() && old(Refs()) == Refs() + multiset{s} && held == old(held) - multiset{s}
      ensures Shrunk(old(list), list, old(Refs()), Refs())
    {
      hide Booked, AllRefs, RetainedRefs, Shrunk;
      held := held - multiset{s};
      assert old(Refs()) == Refs() + multiset{s};
      RefDec(s);
    }

    /** `sub__search`: the deliveries one after the other. */
    method HandOut(s: Stored, ds: seq<Flow.Delivery>)
      requires Holds(s) && Counted()
      modifies this`list, this`refCount, this`storeCount, this`storeBytes, this`retained, this`contexts, this`dests
      ensures Holds(s) && Counted()
      ensures (contexts, dests) == Flow.Handed(limits, old(contexts), old(dests), s, ds)
      ensures retained == AfterRetains(old(retained), s, ds)
      ensures OthersShrunk(old(list), list, old(Refs()), Refs(), s)
    {
      hide Books, Refs, OthersShrunk, Flow.HandedOne, Flow.Handed, AfterRetains, RetainOne, ContextCounted;
      ghost var goal, kept := Flow.Handed(limits, contexts, dests, s, ds), AfterRetains(retained, s, ds);
      OthersShrunkNothing(list, Refs(), s);
      assert ds[0..] == ds;
      var i := 0;
      while i < |ds|
        invariant i <= |ds| && Holds(s) && Counted()
        invariant goal == Flow.Handed(limits, contexts, dests, s, ds[i..])
        invariant kept == AfterRetains(retained, s, ds[i..])
        invariant OthersShrunk(old(list), list, old(Refs()), Refs(), s)
      {
        HandStep(limits, contexts, dests, retained, s, ds, i);
        ghost var was, refs := list, Refs();
        HandOne(s, ds[i]);
        OthersShrunkTrans(old(list), was, list, old(Refs()), refs, Refs(), s);
        i := i + 1;
      }
      assert ds[i..] == [];
      HandNone(limits, contexts, dests, retained, s);
    }

    /** One delivery: `subs__send` for a client, or the retained message of a topic. */
    method HandOne(s: Stored, d: Flow.Delivery)
      requires Holds(s) && Counted()
      modifies this`list, this`refCount, this`storeCount, this`storeBytes, this`retained, this`contexts, this`dests
      ensures Holds(s) && Counted()
      ensures (contexts, dests) == Flow.HandedOne(limits, old(contexts), old(dests), s, d)
      ensures retained == RetainOne(old(retained), s, d)
      ensures OthersShrunk(old(list), list, old(Refs()), Refs(), s)
    {
      hide Books, Refs, OthersShrunk, Flow.Delivered, Flow.Admittance, ContextCounted;
      OthersShrunkNothing(list, Refs(), s);
      OthersShrunkMore(list, list, Refs(), Refs(), s);
      match d {
        case ToClient(c, mid, qos, retain) =>
          if c < |contexts| {
            ghost var state := Flow.Admittance(limits, contexts[c], Outgoing, qos, retain, (s, contexts[c].id) in dests);
            if state.Admit? {
              Flow.DeliveredCounted(contexts[c], Outgoing, mid, qos, retain, s, state.state);
            }
            var _ := MessageInsert(c, mid, Outgoing, qos, retain, s);
          }
        case Retain(topic) =>
          if topic < |retained| {
            Retain(topic, s);
          }
      }
    }

    // ---------- Releasing ----------

    /** Hands the message of an incoming list to others; the list itself stays as it is. */
    method HandOn(c: nat, i: nat, ds: seq<Flow.Delivery>)
      requires Valid() && c < |contexts| && i < |contexts[c].msgsIn.inflight|
      modifies this`list, this`refCount, this`storeCount, this`storeBytes, this`retained, this`contexts, this`dests, this`held
      ensures Valid() && held == old(held)
      ensures var s := old(contexts)[c].msgsIn.inflight[i].store;
              (contexts, dests) == Flow.Handed(limits, old(contexts), old(dests), s, ds) &&
              retained == AfterRetains(old(retained), s, ds)
    {
      hide Books, Refs, Flow.Handed, AfterRetains, ContextCounted, OthersShrunk;
      InFlightIsStored(c, i);
      MessagesQueue(contexts[c].msgsIn.inflight[i].store, ds);
    }

    method RemoveCounted(c: nat, dir: Direction, i: nat)
      requires Valid() && c < |contexts| && i < |Md(contexts[c], dir).inflight|
      modifies this`list, this`refCount, this`storeCount, this`storeBytes, this`contexts
      ensures Valid()
      ensures var md := Md(old(contexts)[c], dir);
              contexts == Put(old(contexts), c, dir, Relist(md, Without(md.inflight, i), md.queued))
    {
      hide Books, Refs, Put, Relist, Shrunk, ContextCounted, DriftOf;
      var md := Md(contexts[c], dir);
      RelistDrift(md, Without(md.inflight, i));
      StillCounted(contexts, c, dir, Relist(md, Without(md.inflight, i), md.queued));
      MessageRemove(c, dir, i);
    }

    /** Releases the message at position `i`, unless it is of another QoS or cannot be handed on. */
    method ReleaseTail(c: nat, i: nat, fan: Fanout) returns (stop: Option<Rc>)
      requires Valid() && c < |contexts| && i < |contexts[c].msgsIn.inflight|
      modifies this`list, this`refCount, this`storeCount, this`storeBytes, this`retained, this`contexts, this`dests, this`held
      ensures Valid() && held == old(held)
      ensures var md := old(contexts)[c].msgsIn;
              var s := md.inflight[i].store;
              var h := ReleasedOne(limits, (old(contexts), old(dests), old(retained)), s, fan);
              stop == (if s.qos != 2 then Some(Protocol) else if s.hasTopic && !fan.ok then Some(NoMem) else None) &&
              |h.0| == |old(contexts)| && dests == h.1 && retained == h.2 &&
              contexts == if stop.Some? then h.0 else Put(h.0, c, Incoming, Relist(md, Without(md.inflight, i), md.queued))
    {
      hide Books, Refs, Relist, ContextCounted, Without, Put, Flow.Handed, AfterRetains;
      var s := contexts[c].msgsIn.inflight[i].store;
      if s.qos != 2 {
        return Some(Protocol);
      }
      if s.hasTopic {
        HandedKeepsIn(limits, contexts, dests, s, fan.ds);
        HandOn(c, i, fan.ds);
        if !fan.ok {
          return Some(NoMem);
        }
      }
      RemoveCounted(c, Incoming, i);
      stop := None;
    }

    /** The first loop of `db__message_release_incoming`; `fan(k)` says to whom the `k`-th released message
        goes and whether that worked. */
    method ReleaseInflight(c: nat, mid: Word16, fan: nat -> Fanout) returns (stop: Option<Rc>, deleted: bool)
      requires Valid() && c < |contexts|
      modifies this`list, this`refCount, this`storeCount, this`storeBytes, this`retained, this`contexts, this`dests, this`held
      ensures Valid() && held == old(held)
      ensures var md := old(contexts)[c].msgsIn;
              var r := Flow.Released(md.inflight, mid, OkOf(fan), 0);
              var h := ReleasedTo(limits, (old(contexts), old(dests), old(retained)), md.inflight, mid, fan, 0);
              stop == r.stop && (stop.None? ==> deleted == r.deleted) && |h.0| == |old(contexts)| &&
              contexts == Put(h.0, c, Incoming, Relist(md, r.rest, md.queued)) && dests == h.1 && retained == h.2
    {
      hide *;
      ghost var queueOk := OkOf(fan);
      ghost var md := contexts[c].msgsIn;
      ghost var goal := Flow.Released(md.inflight, mid, queueOk, 0);
      ghost var l, h := md.inflight, (contexts, dests, retained);
      ghost var all := ReleasedTo(limits, h, l, mid, fan, 0);
      RelistSelf(md);
      PutSelf(contexts, c);
      assert md.inflight[..0] == [] && md.inflight[0..] == md.inflight && [] + goal.rest == goal.rest;
      var i: nat, k: nat := 0, 0;
      deleted := false;
      while i < |contexts[c].msgsIn.inflight|
        invariant |contexts| == |old(contexts)| == |h.0| && l == contexts[c].msgsIn.inflight && i <= |l|
        invariant Valid() && held == old(held)
        invariant contexts == Put(h.0, c, Incoming, Relist(md, l, md.queued)) && dests == h.1 && retained == h.2
        invariant contexts[c].msgsIn == Relist(md, l, md.queued)
        invariant all == ReleasedTo(limits, h, l[i..], mid, fan, k)
        invariant goal.rest == l[..i] + Flow.Released(l[i..], mid, queueOk, k).rest
        invariant goal.stop == Flow.Released(l[i..], mid, queueOk, k).stop
        invariant goal.stop.None? ==> goal.deleted == (deleted || Flow.Released(l[i..], mid, queueOk, k).deleted)
        decreases |contexts[c].msgsIn.inflight| - i
      {
        var tail := contexts[c].msgsIn.inflight[i];
        ReleaseStep(l, i, mid, queueOk, k);
        ReleasedToStep(limits, h, l, i, mid, fan, k);
        if tail.mid == mid {
          OkAt(fan, k);
          ReleasePut(limits, h, c, md, l, i, fan(k));
          stop := ReleaseTail(c, i, fan(k));
          h := ReleasedOne(limits, h, tail.store, fan(k));
          if stop.Some? {
            return stop, deleted;
          }
          if tail.store.hasTopic {
            k := k + 1;
          }
          l := Without(l, i);
          deleted := true;
        } else {
          i := i + 1;
        }
      }
      NothingReleased(mid, queueOk, k);
      NothingReleasedTo(limits, h, mid, fan, k);
      assert l[..i] == l && l[i..] == [] && l + [] == l;
      stop := None;
    }

    /** What a message list refers to is in the store. */
    lemma {:induction false} InFlightIsStored(c: nat, i: nat)
      requires Books() && c < |contexts| && i < |contexts[c].msgsIn.inflight|
      ensures contexts[c].msgsIn.inflight[i].store in list
    {
      hide ListRefs, AllRefs, RetainedRefs, SumLen;
      var md := contexts[c].msgsIn;
      ListRefsAt(md.inflight, i);
      RefsOfOne(contexts, c);
      assert md.inflight[i].store in ContextRefs(contexts[c]);
    }

    /** The queue loop of `db__message_release_incoming`. */
    method ReleaseQueued(c: nat, index0: nat)
      requires Books() && c < |contexts|
      modifies this`contexts
      ensures Books() && Refs() == old(Refs())
      ensures contexts == Put(old(contexts), c, Incoming, Flow.ReleaseQueue(old(contexts)[c].msgsIn, 0, index0))
    {
      hide Books, Refs, Put, DequeueFirst, Flow.ReleaseQueue;
      ghost var cs := contexts;
      var md := contexts[c].msgsIn;
      ghost var goal := Flow.ReleaseQueue(md, 0, index0);
      PutPut(cs, c, Incoming, md, md);
      var i: nat, index: nat := 0, index0;
      while i < |md.queued|
        invariant i <= |md.queued| && Books() && Refs() == old(Refs())
        invariant contexts == Put(cs, c, Incoming, md) && goal == Flow.ReleaseQueue(md, i, index)
        decreases |md.queued| - i
      {
        Flow.ReleaseQueueStep(md, i, index);
        if md.maximum != 0 && index >= md.maximum {
          return;
        }
        index := index + 1;
        if md.queued[i].qos == 2 {
          var marked := Flow.SetQueued(md, i, WaitForPubrel);
          PutPut(cs, c, Incoming, md, marked);
          SetQueuedState(c, Incoming, i, WaitForPubrel);
          PutPut(cs, c, Incoming, marked, DequeueFirst(marked));
          MessageDequeueFirst(c, Incoming);
          Flow.DequeuedOne(marked);
          md := contexts[c].msgsIn;
        } else {
          i := i + 1;
        }
      }
      Flow.ReleaseQueueEnd(md, index);
    }

    /** `db__message_release_incoming`: the incoming data as the list functions say, and the released
        messages handed on in order. */
    method ReleaseIncoming(c: nat, mid: Word16, fan: nat -> Fanout) returns (rc: Rc)
      requires Valid() && c < |contexts|
      modifies this`list, this`refCount, this`storeCount, this`storeBytes, this`retained, this`contexts, this`dests, this`held
      ensures Valid() && held == old(held)
      ensures var md := old(contexts)[c].msgsIn;
              var r := Flow.ReleaseIncoming(md, mid, OkOf(fan));
              var h := ReleasedTo(limits, (old(contexts), old(dests), old(retained)), md.inflight, mid, fan, 0);
              rc == r.1 && |h.0| == |old(contexts)| &&
              contexts == Put(h.0, c, Incoming, r.0) && dests == h.1 && retained == h.2
    {
      hide Books, Refs, Flow.Released, Relist, ContextCounted, Flow.ReleaseQueue, DriftOf, ReleasedTo, Put;
      ghost var md := contexts[c].msgsIn;
      ghost var h := ReleasedTo(limits, (contexts, dests, retained), md.inflight, mid, fan, 0);
      var index := |contexts[c].msgsIn.inflight|;
      var stop, deleted := ReleaseInflight(c, mid, fan);
      if stop.Some? {
        return stop.value;
      }
      ghost var cut := contexts[c].msgsIn;
      PutPut(h.0, c, Incoming, cut, Flow.ReleaseQueue(cut, 0, index));
      Flow.ReleaseQueueKeeps(cut, 0, index);
      StillCounted(contexts, c, Incoming, Flow.ReleaseQueue(cut, 0, index));
      ReleaseQueued(c, index);
      rc := if deleted then Success else NotFound;
    }

    // ---------- Writing ----------

    /** Changes a message in flight in what delivery may change of it, and the quota. */
    method SetMessage(c: nat, dir: Direction, i: nat, m: ClientMsg, quota: nat)
      requires Books() && c < |contexts| && i < |Md(contexts[c], dir).inflight|
      requires Bare(m) == Bare(Md(contexts[c], dir).inflight[i])
      modifies this`contexts
      ensures Books() && Refs() == old(Refs())
      ensures var md := Md(old(contexts)[c], dir);
              contexts == Put(old(contexts), c, dir, md.(inflight := md.inflight[i := m], quota := quota))
    {
      hide Books, Refs, MdRefs, Lineup, Bare, Put;
      var md := Md(contexts[c], dir);
      Flow.SetKeepsLineup(md, i, m, m.state);
      SameLineupSameTotals(Flow.SetInflight(md, i, m), md);
      Flow.QuotaIrrelevant(Flow.SetInflight(md, i, m), quota);
      Update(c, dir, md.(inflight := md.inflight[i := m], quota := quota));
    }

    /** A PUBREC or PUBCOMP was handed to the socket; a PUBCOMP raises the quota even if that failed. */
    method Answered(c: nat, i: nat, sent: bool, ghost cs: seq<Context>, ghost l: seq<ClientMsg>, ghost q: nat) returns (quota: nat)
      requires Books() && c < |cs| && i < |l| && contexts == At(cs, c, Incoming, l, q)
      modifies this`contexts
      ensures Books() && Refs() == old(Refs())
      ensures quota == if l[i].state.ResendPubcomp? && q < cs[c].msgsIn.maximum then q + 1 else q
      ensures contexts == At(cs, c, Incoming, l[i := if sent then l[i].(state := WaitForPubrel) else l[i]], quota)
    {
      hide Books, Refs, At, Bare;
      var tail := contexts[c].msgsIn.inflight[i];
      quota := contexts[c].msgsIn.quota;
      if tail.state.ResendPubcomp? && quota < contexts[c].msgsIn.maximum {
        quota := quota + 1;
      }
      var m := if sent then tail.(state := WaitForPubrel) else tail;
      SameBare(tail, WaitForPubrel);
      SetAt(c, Incoming, i, m, quota, cs, l, q);
    }

    /** The loop of `db__message_write` over the incoming messages in flight. */
    method WriteInflightIn(c: nat, now: nat, out: nat -> Flow.SendResult) returns (sends: nat, ok: bool)
      requires Books() && c < |contexts|
      modifies this`list, this`refCount, this`storeCount, this`storeBytes, this`contexts
      ensures Books() && Shrunk(old(list), list, old(Refs()), Refs())
      ensures var md := old(contexts)[c].msgsIn;
              var r := Flow.WriteIn(md.inflight, md.quota, md.maximum, now, out, 0);
              sends == r.sends && ok == r.ok && contexts == At(old(contexts), c, Incoming, r.l, r.quota)
    {
      hide Books, Refs, Shrunk, At, Flow.WriteIn, Without, Relist, Put, Bare, Flow.Expired;
      ghost var cs := contexts;
      ghost var md := contexts[c].msgsIn;
      ghost var goal := Flow.WriteIn(md.inflight, md.quota, md.maximum, now, out, 0);
      AtStart(cs, c, Incoming);
      ShrunkNothing(list, Refs());
      assert md.inflight[..0] == [] && md.inflight[0..] == md.inflight && [] + goal.l == goal.l;
      var i: nat := 0;
      sends := 0;
      ghost var l, q := md.inflight, md.quota;
      while i < |contexts[c].msgsIn.inflight|
        invariant |contexts| == |cs| && l == contexts[c].msgsIn.inflight && q == contexts[c].msgsIn.quota && i <= |l|
        invariant Books() && contexts == At(cs, c, Incoming, l, q)
        invariant var r := Flow.WriteIn(l[i..], q, md.maximum, now, out, sends); goal == r.(l := l[..i] + r.l)
        invariant Shrunk(old(list), list, old(Refs()), Refs())
        decreases |contexts[c].msgsIn.inflight| - i
      {
        var tail := contexts[c].msgsIn.inflight[i];
        WriteInStep(l, i, q, md.maximum, now, out, sends);
        if Flow.Expired(tail, now) {
          RemoveAt(c, Incoming, i, cs, l, q, old(list), old(Refs()));
          l := Without(l, i);
        } else if tail.state.SendPubrec? || tail.state.ResendPubcomp? {
          sends := sends + 1;
          var sent := out(sends - 1).Sent?;
          var quota := Answered(c, i, sent, cs, l, q);
          l, q := l[i := if sent then tail.(state := WaitForPubrel) else tail], quota;
          if !sent {
            return sends, false;
          }
          i := i + 1;
        } else {
          i := i + 1;
        }
      }
      WriteInNone(q, md.maximum, now, out, sends);
      assert l[..i] == l && l[i..] == [] && l + [] == l;
      ok := true;
    }

    /** A PUBLISH or PUBREL was handed to the socket. A message that is done with leaves the list. */
    method SentOut(c: nat, i: nat, result: Flow.SendResult, ghost cs: seq<Context>, ghost l: seq<ClientMsg>, ghost q: nat,
                   ghost list0: seq<Stored>, ghost refs0: multiset<Stored>) returns (stop: bool, removed: bool)
      requires Books() && c < |cs| && i < |l| && contexts == At(cs, c, Outgoing, l, q) && Shrunk(list0, list, refs0, Refs())
      modifies this`list, this`refCount, this`storeCount, this`storeBytes, this`contexts
      ensures Books() && Shrunk(list0, list, refs0, Refs())
      ensures stop == (result.Failed? || (result.Oversize? && l[i].state.ResendPubrel?))
      ensures removed == (!stop && (result.Oversize? || l[i].state.PublishQos0?))
      ensures contexts == At(cs, c, Outgoing, if stop then l else if removed then Without(l, i) else l[i := Flow.AfterSend(l[i])], q)
    {
      hide Books, Refs, Shrunk, At, Without, Relist, Put, Bare, Flow.AfterSend;
      var tail := contexts[c].msgsOut.inflight[i];
      if result.Failed? || (result.Oversize? && tail.state.ResendPubrel?) {
        return true, false;
      }
      if result.Oversize? || tail.state.PublishQos0? {
        RemoveAt(c, Outgoing, i, cs, l, q, list0, refs0);
        return false, true;
      }
      SentBare(tail);
      SetAt(c, Outgoing, i, Flow.AfterSend(tail), contexts[c].msgsOut.quota, cs, l, q);
      return false, false;
    }

    /** The loop of `db__message_write` over the outgoing messages in flight. */
    method WriteInflightOut(c: nat, now: nat, out: nat -> Flow.SendResult, sends0: nat) returns (sends: nat, ok: bool)
      requires Books() && c < |contexts|
      modifies this`list, this`refCount, this`storeCount, this`storeBytes, this`contexts
      ensures Books() && Shrunk(old(list), list, old(Refs()), Refs())
      ensures var md := old(contexts)[c].msgsOut;
              var r := Flow.WriteOut(md.inflight, now, out, sends0);
              sends == r.sends && ok == r.ok && contexts == At(old(contexts), c, Outgoing, r.l, md.quota)
    {
      hide Books, Refs, Shrunk, At, Flow.WriteOut, OutRemains, Without, Relist, Put, Bare, Flow.AfterSend, Flow.ToPublish, Flow.Expired,
           AllRefs, RetainedRefs, ContextCounted, Booked, WithMd, Md;
      ghost var cs := contexts;
      ghost var md := contexts[c].msgsOut;
      ghost var goal := Flow.WriteOut(md.inflight, now, out, sends0);
      OutStart(cs, c);
      ShrunkNothing(list, Refs());
      OutRemainsStart(md.inflight, now, out, sends0);
      var i: nat := 0;
      sends := sends0;
      ghost var l := md.inflight;
      while i < |contexts[c].msgsOut.inflight|
        invariant |contexts| == |cs| && l == contexts[c].msgsOut.inflight && i <= |l|
        invariant Books() && contexts == At(cs, c, Outgoing, l, md.quota)
        invariant OutRemains(goal, l, i, now, out, sends)
        invariant Shrunk(old(list), list, old(Refs()), Refs())
        decreases |l| - i
      {
        var tail := contexts[c].msgsOut.inflight[i];
        OutRemainsStep(goal, l, i, now, out, sends);
        if Flow.Expired(tail, now) {
          RemoveAt(c, Outgoing, i, cs, l, md.quota, old(list), old(Refs()));
          l := Without(l, i);
          AtOut(cs, c, l, md.quota);
        } else if Flow.ToPublish(tail) || tail.state.ResendPubrel? {
          sends := sends + 1;
          var stop, removed := SentOut(c, i, out(sends - 1), cs, l, md.quota, old(list), old(Refs()));
          if stop {
            return sends, false;
          }
          l := if removed then Without(l, i) else l[i := Flow.AfterSend(tail)];
          AtOut(cs, c, l, md.quota);
          i := if removed then i else i + 1;
        } else {
          i := i + 1;
        }
      }
      OutRemainsEnd(goal, l, now, out, sends);
      ok := true;
    }

    /** The loop of `db__message_write` over the queued incoming messages. */
    method WriteQueuedIn(c: nat, out: nat -> Flow.SendResult, sends0: nat) returns (ok: bool)
      requires Books() && c < |contexts|
      modifies this`contexts
      ensures Books() && Refs() == old(Refs())
      ensures var r := Flow.WriteQueueIn(old(contexts)[c].msgsIn, old(contexts)[c].msgsOut.maximum, 0, out, sends0);
              ok == r.1 && contexts == Put(old(contexts), c, Incoming, r.0)
    {
      hide Books, Refs, Put, Flow.WriteQueueIn, DequeueFirst, Flow.SetQueued;
      ghost var cs := contexts;
      var md := contexts[c].msgsIn;
      var outMaximum := contexts[c].msgsOut.maximum;
      ghost var goal := Flow.WriteQueueIn(md, outMaximum, 0, out, sends0);
      PutPut(cs, c, Incoming, md, md);
      var i: nat, sends: nat := 0, sends0;
      while i < |md.queued|
        invariant i <= |md.queued| && Books() && Refs() == old(Refs())
        invariant contexts == Put(cs, c, Incoming, md) && goal == Flow.WriteQueueIn(md, outMaximum, i, out, sends)
        decreases |md.queued| - i
      {
        Flow.WriteQueueInStep(md, outMaximum, i, out, sends);
        if outMaximum != 0 && md.quota == 0 {
          return true;
        }
        if md.queued[i].qos == 2 {
          SetQueuedState(c, Incoming, i, SendPubrec);
          var marked := contexts[c].msgsIn;
          PutPut(cs, c, Incoming, md, marked);
          Flow.MarkedQueue(md, i);
          PutPut(cs, c, Incoming, marked, DequeueFirst(marked));
          MessageDequeueFirst(c, Incoming);
          Flow.LateMark(md, i);
          sends := sends + 1;
          if !out(sends - 1).Sent? {
            return false;
          }
          PutPut(cs, c, Incoming, DequeueFirst(marked), Flow.Mark(DequeueFirst(marked), i));
          MarkTail(c, i);
          md := contexts[c].msgsIn;
        } else {
          i := i + 1;
        }
      }
      Flow.WriteQueueInEnd(md, outMaximum, out, sends);
      ok := true;
    }

    /** The message just moved, wherever it is now, waits for PUBREL. */
    method MarkTail(c: nat, i: nat)
      requires Books() && c < |contexts| && Flow.Movable(contexts[c].msgsIn, i)
      modifies this`contexts
      ensures Books() && Refs() == old(Refs())
      ensures contexts == Put(old(contexts), c, Incoming, Flow.Mark(old(contexts)[c].msgsIn, i))
    {
      hide Books, Refs, Put;
      var md := contexts[c].msgsIn;
      if i == 0 {
        var last := |md.inflight| - 1;
        SameBare(md.inflight[last], WaitForPubrel);
        SetMessage(c, Incoming, last, md.inflight[last].(state := WaitForPubrel), md.quota);
      } else {
        SetQueuedState(c, Incoming, i - 1, WaitForPubrel);
      }
    }

    /** The loop of `db__message_write` over the queued outgoing messages. */
    method WriteQueuedOut(c: nat)
      requires Books() && c < |contexts|
      modifies this`contexts
      ensures Books() && Refs() == old(Refs())
      ensures var md := old(contexts)[c].msgsOut;
              contexts == Put(old(contexts), c, Outgoing, Flow.Open(md, Flow.Admitted(md)))
    {
      hide Books, Refs, Put, DequeueFirst;
      ghost var cs := contexts;
      ghost var md := contexts[c].msgsOut;
      Flow.OpenNone(md);
      PutPut(cs, c, Outgoing, md, md);
      ghost var k := 0;
      while contexts[c].msgsOut.queued != []
        invariant |contexts| == |cs| && k <= Flow.Admitted(md)
        invariant contexts == Put(cs, c, Outgoing, Flow.Open(md, k))
        invariant Books() && Refs() == old(Refs())
        decreases |md.queued| - k
      {
        if contexts[c].msgsOut.maximum != 0 && contexts[c].msgsOut.quota == 0 {
          break;
        }
        Flow.OpenStep(md, k);
        PutPut(cs, c, Outgoing, Flow.Open(md, k), Flow.SetQueued(Flow.Open(md, k), 0, PublishState(Flow.Open(md, k).queued[0].qos)));
        SetQueuedState(c, Outgoing, 0, PublishState(contexts[c].msgsOut.queued[0].qos));
        PutPut(cs, c, Outgoing, contexts[c].msgsOut, Flow.Open(md, k + 1));
        MessageDequeueFirst(c, Outgoing);
        k := k + 1;
      }
    }

    /** `db__message_write` */
    method MessageWrite(c: nat, now: nat, out: nat -> Flow.SendResult) returns (rc: Rc)
      requires Valid() && c < |contexts|
      modifies this`list, this`refCount, this`storeCount, this`storeBytes, this`contexts
      ensures Valid() && Shrunk(old(list), list, old(Refs()), Refs())
      ensures var ctx := old(contexts)[c];
              if !ctx.connected || (ctx.active && !ctx.hasId) then rc == Inval && contexts == old(contexts)
              else if !ctx.active then rc == Success && contexts == old(contexts)
              else contexts == old(contexts)[c := Flow.Write(ctx, now, out).0] &&
                   rc == if Flow.Write(ctx, now, out).1 then Success else Errno
    {
      hide Books, Refs, Shrunk, ContextCounted, Flow.Write;
      ShrunkNothing(list, Refs());
      if !contexts[c].connected || (contexts[c].active && !contexts[c].hasId) {
        return Inval;
      }
      if !contexts[c].active {
        return Success;
      }
      WriteStillCounted(contexts, c, now, out);
      rc := WriteActive(c, now, out);
    }

    method WriteActive(c: nat, now: nat, out: nat -> Flow.SendResult) returns (rc: Rc)
      requires Books() && c < |contexts|
      modifies this`list, this`refCount, this`storeCount, this`storeBytes, this`contexts
      ensures Books() && Shrunk(old(list), list, old(Refs()), Refs())
      ensures contexts == old(contexts)[c := Flow.Write(old(contexts)[c], now, out).0]
      ensures rc == if Flow.Write(old(contexts)[c], now, out).1 then Success else Errno
    {
      hide Books, Refs, Shrunk, Flow.WriteIn, Flow.WriteOut, Flow.WriteQueueIn, Flow.Open, Flow.Admitted, Relist;
      var sends, ok := WriteInflightIn(c, now, out);
      if !ok {
        return Errno;
      }
      ghost var was, refs := list, Refs();
      AtIs(contexts, c, Outgoing, Flow.WriteOut(contexts[c].msgsOut.inflight, now, out, sends).l, contexts[c].msgsOut.quota);
      sends, ok := WriteInflightOut(c, now, out, sends);
      ShrunkTrans(old(list), was, list, old(Refs()), refs, Refs());
      if !ok {
        return Errno;
      }
      ok := WriteQueuedIn(c, out, sends);
      if !ok {
        return Errno;
      }
      WriteQueuedOut(c);
      rc := Success;
    }

    // ---------- Clients ----------

    /** A client that just connected. */
    method NewClient(session: Session)
      requires Valid()
      modifies this`contexts
      ensures Valid() && Refs() == old(Refs()) && contexts == old(contexts) + [Fresh(session)] && list == old(list)
    {
      hide Booked, RetainedRefs, ContextRefs;
      FreshEmpty(session);
      AllRefsSnoc(contexts, Fresh(session));
      contexts := contexts + [Fresh(session)];
    }

    /** The session of client `f` passes to client `c`, which just connected (`handle_connect.c`): if
        there are messages, the lists move and the counters are taken anew. */
    method TakeOver(c: nat, f: nat)
      requires Valid() && c < |contexts| && f < |contexts| && c != f && HasNoMessages(contexts[c])
      modifies this`list, this`refCount, this`storeCount, this`storeBytes, this`contexts
      ensures Valid() && Shrunk(old(list), list, old(Refs()), Refs())
      ensures var got := old(contexts)[c].(msgsIn := old(contexts)[f].msgsIn, msgsOut := old(contexts)[f].msgsOut);
              contexts ==
                if HasNoMessages(old(contexts)[f]) then old(contexts)
                else old(contexts)[f := old(contexts)[f].(msgsIn := NOTHING, msgsOut := NOTHING)]
                                  [c := Flow.ResetIncoming(limits, Flow.ResetOutgoing(limits, got))]
    {
      hide Booked, RetainedRefs, AllRefs, ContextRefs, CountersOk, Flow.ResetIncoming, Flow.ResetOutgoing, Shrunk;
      ShrunkNothing(list, Refs());
      if !HasNoMessages(contexts[f]) {
        var got := contexts[c].(msgsIn := contexts[f].msgsIn, msgsOut := contexts[f].msgsOut);
        var left := contexts[f].(msgsIn := NOTHING, msgsOut := NOTHING);
        MovedRefs(contexts, c, f, got, left);
        NothingCounted();
        contexts := contexts[f := left][c := got];
        assert Books() && Refs() == old(Refs());
        ReconnectReset(c);
        ExactIsEnough(contexts[c].msgsIn, contexts[c].maximumQos >= 1);
        ExactIsEnough(contexts[c].msgsOut, contexts[c].maximumQos >= 1);
      }
    }

    /** A client connects and takes over the session that its identifier has. */
    method Resume(session: Session, f: nat)
      requires Valid() && f < |contexts| && contexts[f].id == session.id
      modifies this`list, this`refCount, this`storeCount, this`storeBytes, this`contexts
      ensures Valid() && Shrunk(old(list), list, old(Refs()), Refs())
      ensures contexts == ResumeOf(limits, old(contexts), session, f)
    {
      hide Books, Refs, ContextCounted, Shrunk, Flow.ResetIncoming, Flow.ResetOutgoing;
      var c := |contexts|;
      NewClient(session);
      TakeOver(c, f);
    }

    /** `bridge__connect` before it connects: a client resets its own lists, and empties them if it starts
        clean. */
    method BridgeRestart(c: nat, cleanStart: bool)
      requires Valid() && c < |contexts|
      modifies this`list, this`refCount, this`storeCount, this`storeBytes, this`contexts
      ensures Valid() && Shrunk(old(list), list, old(Refs()), Refs())
      ensures contexts == old(contexts)[c := RestartOf(limits, old(contexts)[c], cleanStart)]
    {
      hide Books, Refs, CountersOk, Flow.ResetIncoming, Flow.ResetOutgoing, Flow.Emptied, Shrunk;
      Disconnect(c);
      ReconnectReset(c);
      ExactIsEnough(contexts[c].msgsIn, contexts[c].maximumQos >= 1);
      ExactIsEnough(contexts[c].msgsOut, contexts[c].maximumQos >= 1);
      if cleanStart {
        ghost var was, refs := list, Refs();
        MessagesDelete(c);
        ShrunkTrans(old(list), was, list, old(Refs()), refs, Refs());
      }
    }

    method Disconnect(c: nat)
      requires Valid() && c < |contexts|
      modifies this`contexts
      ensures Valid() && Refs() == old(Refs()) && list == old(list)
      ensures contexts == old(contexts)[c := Offline(old(contexts)[c])]
    {
      hide Booked, RetainedRefs, AllRefs, CountersOk;
      SameContextRefs(contexts, c, Offline(contexts[c]));
      contexts := contexts[c := Offline(contexts[c])];
    }

    // ---------- Packets of the message flow ----------

    /** `util__increment_send_quota` and `util__increment_receive_quota` */
    method IncrementQuota(c: nat, dir: Direction)
      requires Valid() && c < |contexts|
      modifies this`contexts
      ensures Valid() && Refs() == old(Refs())
      ensures contexts == Put(old(contexts), c, dir, Flow.Raised(Md(old(contexts)[c], dir)))
    {
      hide Books, Refs, ContextCounted, Put, Flow.Raised;
      var md := Md(contexts[c], dir);
      Flow.RaisedCounted(md);
      StillCounted(contexts, c, dir, Flow.Raised(md));
      Update(c, dir, Flow.Raised(md));
    }

    /** `handle__pubackcomp` behind the decoding: the quota is raised before anything is checked. */
    method HandlePubackcomp(c: nat, mid: Word16, comp: bool) returns (rc: Rc)
      requires Valid() && c < |contexts|
      modifies this`list, this`refCount, this`storeCount, this`storeBytes, this`contexts
      ensures Valid() && Shrunk(old(list), list, old(Refs()), Refs())
      ensures var r := AckOf(old(contexts)[c], mid, comp);
              rc == r.1 && contexts == Put(old(contexts), c, Outgoing, r.0)
    {
      hide Books, Refs, ContextCounted, Put, Flow.Raised, Flow.DeleteOutgoing, Shrunk;
      ShrunkNothing(list, Refs());
      PutPut(contexts, c, Outgoing, contexts[c].msgsOut, contexts[c].msgsOut);
      if !contexts[c].active { return Protocol; }
      ghost var md := Flow.Raised(contexts[c].msgsOut);
      IncrementQuota(c, Outgoing);
      if mid == 0 { return Protocol; }
      PutPut(old(contexts), c, Outgoing, md, Flow.DeleteOutgoing(md, mid, WaitForPubcomp, if comp then 2 else 1).0);
      rc := DeleteOutgoing(c, mid, WaitForPubcomp, if comp then 2 else 1);
      Flow.AckCodes(md, mid, WaitForPubcomp, if comp then 2 else 1);
      if rc == NotFound { rc := Success; }
    }

    /** `handle__pubrec` behind the decoding; `sent` is the result of sending the PUBREL. */
    method HandlePubrec(c: nat, mid: Word16, reason: Byte, sent: Rc) returns (rc: Rc)
      requires Valid() && c < |contexts|
      modifies this`list, this`refCount, this`storeCount, this`storeBytes, this`contexts
      ensures Valid() && Shrunk(old(list), list, old(Refs()), Refs())
      ensures var r := PubrecOf(old(contexts)[c], mid, reason);
              contexts == Put(old(contexts), c, Outgoing, r.0) &&
              rc == if reason < 0x80 && r.1 != Protocol then sent else r.1
    {
      hide Books, Refs, ContextCounted, Put, Flow.DeleteOutgoing, Shrunk;
      ShrunkNothing(list, Refs());
      PutPut(contexts, c, Outgoing, contexts[c].msgsOut, contexts[c].msgsOut);
      if !contexts[c].active || mid == 0 { return Protocol; }
      if reason < 0x80 {
        rc := UpdateOutgoing(c, mid, WaitForPubcomp, 2);
      } else {
        rc := DeleteOutgoing(c, mid, WaitForPubrec, 2);
        return rc;
      }
      if rc != NotFound && rc != Success { return rc; }
      rc := sent;
    }

    /** `handle__pubrel` behind the decoding; `sent` is the result of sending the PUBCOMP, for which the
        quota is raised also when nothing was found. */
    method HandlePubrel(c: nat, mid: Word16, fan: nat -> Fanout, sent: Rc) returns (rc: Rc)
      requires Valid() && c < |contexts|
      modifies this`list, this`refCount, this`storeCount, this`storeBytes, this`retained, this`contexts, this`dests, this`held
      ensures Valid() && held == old(held)
      ensures var r := PubrelOf(limits, old(Abs()), c, mid, fan);
              Abs() == r.0 && rc == if r.1 == Success || r.1 == NotFound then sent else r.1
    {
      hide Books, Refs, ContextCounted, Put, Flow.ReleaseIncoming, ReleasedTo, Flow.Raised, OkOf;
      if !contexts[c].active || mid == 0 { return Protocol; }
      ghost var md := contexts[c].msgsIn;
      ghost var r := Flow.ReleaseIncoming(md, mid, OkOf(fan));
      ghost var h := ReleasedTo(limits, (contexts, dests, retained), md.inflight, mid, fan, 0);
      rc := ReleaseIncoming(c, mid, fan);
      if rc != NotFound && rc != Success { return rc; }
      PutPut(h.0, c, Incoming, r.0, Flow.Raised(r.0));
      IncrementQuota(c, Incoming);
      rc := sent;
    }

    /** The end of `handle__publish`: a message is stored unless it is still there from an earlier PUBLISH
        with its id, and handed on, or with QoS 2 put in line for its PUBREL. Repeating a PUBLISH of
        QoS 2 changes nothing. `queued` says that handing on worked or found no subscriber: if not, a
        PUBLISH of QoS 1 is answered with v3 only. */
    method HandlePublish(c: nat, mid: Word16, hasTopic: bool, qos: Qos, retain: bool, payloadLen: nat, expiryInterval: nat,
                         now: nat, ds: seq<Flow.Delivery>, queued: bool) returns (s: Stored, repeated: bool)
      requires Valid() && c < |contexts|
      modifies this`list, this`refCount, this`storeCount, this`storeBytes, this`lastId,
               this`retained, this`contexts, this`dests, this`held
      ensures Valid() && held == old(held)
      ensures Abs() == PublishOf(limits, old(Abs()), c, mid, hasTopic, qos, retain, payloadLen, expiryInterval, now, ds, queued)
      ensures (s, repeated) == MessageOf(old(Abs()), c, mid, hasTopic, qos, payloadLen, expiryInterval, now)
      ensures repeated <==> qos > 0 && ReceivedBefore(old(contexts)[c].msgsIn, mid)
      ensures repeated ==> s in old(list)
      ensures qos < 2 ==> (s in list <==> s in Refs())
      ensures qos == 2 ==> list == if repeated then old(list) else [s] + old(list)
    {
      hide Books, Refs, Flow.Handed, AfterRetains, ContextCounted, OthersShrunk, Flow.Admittance, Flow.Delivered, Put, FirstFrom;
      s, repeated := FindOrStore(c, mid, hasTopic, qos, payloadLen, expiryInterval, now);
      if qos < 2 {
        HandPublished(c, qos, s, ds, queued);
      } else if !repeated {
        InsertPublished(c, mid, qos, retain, s);
      }
    }

    /** The message that is still in line with this id, or a new one in the store. */
    method FindOrStore(c: nat, mid: Word16, hasTopic: bool, qos: Qos, payloadLen: nat, expiryInterval: nat, now: nat)
      returns (s: Stored, repeated: bool)
      requires Valid() && c < |contexts|
      modifies this`list, this`refCount, this`storeCount, this`storeBytes, this`lastId
      ensures Valid() && s in list && list == (if repeated then old(list) else [s] + old(list))
      ensures (s, repeated) == MessageOf(old(Abs()), c, mid, hasTopic, qos, payloadLen, expiryInterval, now)
      ensures lastId == if repeated then old(lastId) else old(lastId) + 1
      ensures repeated <==> qos > 0 && ReceivedBefore(old(contexts)[c].msgsIn, mid)
    {
      hide Books, Refs, ContextCounted, FirstFrom;
      var stored := None;
      if qos > 0 {
        stored := MessageStoreFind(c, mid);
      }
      repeated := stored.Some?;
      if stored.None? {
        s := MessageStore(mid, hasTopic, qos, payloadLen, expiryInterval, now);
      } else {
        s := stored.value;
        FoundIsStored(c, s);
      }
    }

    /** A message of QoS 0 or 1 is handed on; one of QoS 1 takes receive quota, and its PUBACK gives it
        back. */
    method HandPublished(c: nat, qos: Qos, s: Stored, ds: seq<Flow.Delivery>, queued: bool)
      requires Valid() && c < |contexts| && s in list && qos < 2
      modifies this`list, this`refCount, this`storeCount, this`storeBytes, this`retained, this`contexts, this`dests, this`held
      ensures Valid() && held == old(held) && (s in list <==> s in Refs())
      ensures var h := Flow.Handed(limits, QuotaTaken(old(contexts), c, qos), old(dests), s, ds);
              contexts == (if qos == 1 && (queued || !old(contexts)[c].v5) then QuotaGiven(h.0, c) else h.0) &&
              dests == h.1 && retained == AfterRetains(old(retained), s, ds)
    {
      hide Books, Refs, Flow.Handed, AfterRetains, ContextCounted, OthersShrunk, Put;
      var v5 := contexts[c].v5;
      if qos == 1 {
        DecrementReceiveQuota(c);
      }
      MessagesQueue(s, ds);
      if qos == 1 && (queued || !v5) {
        IncrementQuota(c, Incoming);
      }
    }

    /** A message of QoS 2 is put in line for its PUBREL, if it is admitted. */
    method InsertPublished(c: nat, mid: Word16, qos: Qos, retain: bool, s: Stored)
      requires Valid() && c < |contexts| && s in list
      modifies this`refCount, this`contexts, this`dests
      ensures Valid() && Abs() == InsertOf(limits, old(Abs()), c, Incoming, mid, qos, retain, s)
    {
      hide Books, Refs, ContextCounted, Flow.Admittance, Flow.Delivered;
      ghost var a := Flow.Admittance(limits, contexts[c], Incoming, qos, retain, (s, contexts[c].id) in dests);
      if a.Admit? {
        Flow.DeliveredCounted(contexts[c], Incoming, mid, qos, retain, s, a.state);
      }
      var _ := MessageInsert(c, mid, Incoming, qos, retain, s);
    }

    /** `util__decrement_receive_quota` */
    method DecrementReceiveQuota(c: nat)
      requires Valid() && c < |contexts|
      modifies this`contexts
      ensures Valid() && Refs() == old(Refs()) && contexts == QuotaTaken(old(contexts), c, 1)
    {
      hide Books, Refs, ContextCounted, Put;
      var md := contexts[c].msgsIn;
      QuotaKeeps(md, Flow.Less(md.quota, 1));
      StillCounted(contexts, c, Incoming, md.(quota := Flow.Less(md.quota, 1)));
      Update(c, Incoming, md.(quota := Flow.Less(md.quota, 1)));
    }

    lemma {:induction false} FoundIsStored(c: nat, s: Stored)
      requires Books() && c < |contexts|
      requires var l := contexts[c].msgsIn.inflight + contexts[c].msgsIn.queued; exists i :: 0 <= i < |l| && l[i].store == s
      ensures s in list
    {
      hide ListRefs, AllRefs, RetainedRefs, SumLen;
      var md := contexts[c].msgsIn;
      var l := md.inflight + md.queued;
      var i :| 0 <= i < |l| && l[i].store == s;
      ListRefsAt(l, i);
      ListRefsAppend(md.inflight, md.queued);
      RefsOfOne(contexts, c);
      assert s in ContextRefs(contexts[c]);
    }

    // ---------- Runs ----------

    /** One operation, in place, is the step of the machine, and keeps the books. */
    method Step(op: Op)
      requires Valid()
      modifies this
      ensures Valid() && held == old(held)
      ensures Abs() == StepOf(limits, old(Abs()), op)
    {
      hide Books, Refs, ContextCounted, Shrunk, OthersShrunk, PublishOf, InsertOf, ResumeOf, RestartOf, AckOf, PubrecOf,
           PubrelOf, Flow.Write, Flow.Emptied, Offline, Fresh, Put, HasNoMessages;
      match op {
        case Connect(session) => NewClient(session);
        case Resume(session, f) =>
          if f < |contexts| && contexts[f].id == session.id {
            Resume(session, f);
          }
        case Restart(c, cleanStart) =>
          if c < |contexts| {
            BridgeRestart(c, cleanStart);
          }
        case Lost(c) =>
          if c < |contexts| {
            Disconnect(c);
          }
        case Publish(c, mid, hasTopic, qos, retain, payloadLen, expiryInterval, now, ds, queued) =>
          if c < |contexts| {
            var _, _ := HandlePublish(c, mid, hasTopic, qos, retain, payloadLen, expiryInterval, now, ds, queued);
          }
        case SendRetained(c, topic, mid, qos) =>
          if c < |contexts| && topic < |retained| && retained[topic].Some? {
            SendStored(c, topic, mid, qos);
          }
        case Puback(c, mid) =>
          if c < |contexts| {
            var _ := HandlePubackcomp(c, mid, false);
          }
        case Pubcomp(c, mid) =>
          if c < |contexts| {
            var _ := HandlePubackcomp(c, mid, true);
          }
        case Pubrec(c, mid, reason, sent) =>
          if c < |contexts| {
            var _ := HandlePubrec(c, mid, reason, sent);
          }
        case Pubrel(c, mid, fan, sent) =>
          if c < |contexts| {
            var _ := HandlePubrel(c, mid, fan, sent);
          }
        case Write(c, now, out) =>
          if c < |contexts| {
            var _ := MessageWrite(c, now, out);
          }
        case Delete(c) =>
          if c < |contexts| {
            MessagesDelete(c);
          }
        case Compact => StoreCompact();
      }
    }

    /** The retained message of a topic goes to a new subscriber. */
    method SendStored(c: nat, topic: nat, mid: Word16, qos: Qos)
      requires Valid() && c < |contexts| && topic < |retained| && retained[topic].Some?
      modifies this`refCount, this`contexts, this`dests
      ensures Valid()
      ensures Abs() == InsertOf(limits, old(Abs()), c, Outgoing, mid, qos, true, retained[topic].value)
    {
      hide Booked, AllRefs, RetainedRefs, ContextCounted, Flow.Admittance, Flow.Delivered;
      var s := retained[topic].value;
      RetainedIsHeld(retained, topic);
      assert s in Refs();
      BookedFacts(list, refCount, storeCount, storeBytes, lastId, Refs());
      ghost var a := Flow.Admittance(limits, contexts[c], Outgoing, qos, true, (s, contexts[c].id) in dests);
      if a.Admit? {
        Flow.DeliveredCounted(contexts[c], Outgoing, mid, qos, true, s, a.state);
      }
      var _ := MessageInsert(c, mid, Outgoing, qos, true, s);
    }

    /** Over any sequence of operations the database runs like the machine, and: every reference count is
        the number of references, whatever a client list or a retained message refers to is in the store,
        the totals of the store are those of its list, every client's counters say what its lists hold,
        and (from a state in which it is so) only messages with QoS 0 are in the state to be published as
        such. */
    method Run(ops: seq<Op>)
      requires Valid() && held == multiset{}
      modifies this
      ensures Valid() && Abs() == RunOf(limits, old(Abs()), ops)
      ensures forall s :: s in list ==> s in refCount && refCount[s] == AllRefs(contexts)[s] + RetainedRefs(retained)[s]
      ensures forall s :: s in AllRefs(contexts) || s in RetainedRefs(retained) ==> s in list
      ensures storeCount == |list| && storeBytes == SumLen(list)
      ensures forall c :: 0 <= c < |contexts| ==> ContextCounted(contexts[c])
      ensures ContextsFit(old(contexts)) ==> ContextsFit(contexts)
    {
      assert ops[0..] == ops;
      if ContextsFit(contexts) { RunFits(limits, Abs(), ops); }
      for i := 0 to |ops|
        invariant Valid() && held == multiset{}
        invariant RunOf(limits, Abs(), ops[i..]) == RunOf(limits, old(Abs()), ops)
      {
        hide StepOf, Valid, ContextsFit;
        RunStep(limits, Abs(), ops, i);
        Step(ops[i]);
      }
      assert ops[|ops|..] == [];
      RunNone(limits, Abs());
      assert Refs() == AllRefs(contexts) + RetainedRefs(retained);
    }
  }
}
