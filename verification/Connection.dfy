/** The part of an HTTP/3 connection that owns the stream tables: which messages still have something to send,
    when they end, and what a GOAWAY does to them.
 */
module Connections {
  import opened Bits
  import opened Headers
  import S = SendMessages
  import opened StreamTables
  import T = Transport

  datatype ConnectionState = Initializing | ZeroRtt | Connected | GoingAway(id: StreamId) | Closing | Closed

  predicate Active(s: ConnectionState) {
    s.Connected? || s.GoingAway? || s.ZeroRtt?
  }

  datatype ConnectionError =
    | HttpId
    | HttpGoaway
    | AlreadyClosed
    | Unavailable
    | InvalidStreamId
    | InvalidInput
    | HttpClosedCriticalStream
    | TransportFailed

  datatype Res<+T> = Ok(value: T) | Err(error: ConnectionError)

  /** A message in the table has not ended, and it is queued as long as it has something to send. */
  predicate Alive(e: SendEntry, queued: bool) {
    e.kind == Http ==> e.view.fins == 0 && !e.view.IsDone() && (e.view.HasDataToSend() ==> queued)
  }

  /** A message that has left the table the regular way: all was passed on, and then the end, once, unless the
      stream was gone by then. */
  predicate Complete(v: S.SendView, unended: bool) {
    v.IsDone() && v.fins == if unended then 0 else 1
  }

  /** The messages of a table that were given to the transport, with what it took of each. */
  ghost predicate ServedAll(ids: set<StreamId>, s0: map<StreamId, SendEntry>, s: map<StreamId, SendEntry>,
                            finished: map<StreamId, S.SendView>, accept: StreamId -> Option<nat>)
  {
    forall id :: id in ids && id in s0 && s0[id].kind == Http ==>
      !S.Fails(s0[id].view, accept(id)) && ServedOne(id, s0, s, finished, accept(id))
  }

  ghost predicate ServedOne(id: StreamId, s0: map<StreamId, SendEntry>, s: map<StreamId, SendEntry>,
                            finished: map<StreamId, S.SendView>, room: Option<nat>)
  {
    id in s0 && s0[id].kind == Http ==>
      var v := S.ServedBy(s0[id].view, room);
      if v.IsDone() then id !in s && id in finished && finished[id] == v else id in s && s[id] == SendEntry(Http, v)
  }

  ghost predicate Untouched(ids: set<StreamId>, s0: map<StreamId, SendEntry>, s: map<StreamId, SendEntry>) {
    forall id :: id !in ids && id in s0 && s0[id].kind == Http ==> id in s && s[id] == s0[id]
  }

  /** Streams of any kind that are still there have been served, or did not change. */
  ghost predicate OnlyServed(ids: set<StreamId>, s0: map<StreamId, SendEntry>, s: map<StreamId, SendEntry>,
                             accept: StreamId -> Option<nat>)
  {
    forall id :: id in s ==>
      && id in s0
      && s[id] == if id in ids then SendEntry(s0[id].kind, S.ServedBy(s0[id].view, accept(id))) else s0[id]
  }

  /** Streams of any kind for which sending would have failed are not there any more. */
  ghost predicate FailedGone(ids: set<StreamId>, s0: map<StreamId, SendEntry>, s: map<StreamId, SendEntry>,
                             accept: StreamId -> Option<nat>)
  {
    forall id :: id in ids && id in s0 && S.Fails(s0[id].view, accept(id)) ==> id !in s
  }

  /** The streams that are queued again have bytes left. */
  ghost predicate Requeued(ids: set<StreamId>, s0: map<StreamId, SendEntry>, queued: set<StreamId>,
                           accept: StreamId -> Option<nat>)
  {
    forall id :: id in queued ==>
      id in ids && id in s0 && S.ServedBy(s0[id].view, accept(id)).HasDataToSend()
  }

  /** A message that still is what it was, and is not queued. */
  ghost predicate Dropped(id: StreamId, s0: map<StreamId, SendEntry>, s: map<StreamId, SendEntry>,
                          queued: set<StreamId>)
  {
    id in s0 && id in s && s[id] == s0[id] && id !in queued
  }

  /** A round over the streams p0 that was cut short: each message was either served, and is queued if it has
      bytes left, or it was dropped; the ones that fail were dropped. */
  ghost predicate CutShort(p0: set<StreamId>, s0: map<StreamId, SendEntry>, s: map<StreamId, SendEntry>,
                           finished: map<StreamId, S.SendView>, queued: set<StreamId>,
                           accept: StreamId -> Option<nat>)
  {
    forall id :: id in p0 && id in s0 && s0[id].kind == Http ==>
      || Dropped(id, s0, s, queued)
      || (&& !S.Fails(s0[id].view, accept(id)) && ServedOne(id, s0, s, finished, accept(id))
          && (id in s ==> Alive(s[id], id in queued)))
  }

  ghost predicate AllAlive(send: map<StreamId, SendEntry>, queued: set<StreamId>) {
    forall id :: id in send ==> Alive(send[id], id in queued)
  }

  ghost predicate AllComplete(finished: map<StreamId, S.SendView>, send: map<StreamId, SendEntry>,
                              unended: set<StreamId>)
  {
    && (forall id :: id in finished ==> Complete(finished[id], id in unended) && id !in send)
    && unended <= finished.Keys
  }

  /** Messages do not belong to sessions. */
  ghost predicate SessionsOk(t: Tables) {
    && (forall s, id :: s in t.recv && t.recv[s].session.Some? && id in t.recv[s].session.value.send && id in t.send ==>
          t.send[id].kind == WebTransport)
    && (forall s, id :: s in t.recv && t.recv[s].session.Some? && id in t.recv[s].session.value.recv && id in t.recv ==>
          t.recv[id].kind == WebTransport)
  }

  lemma SessionsStay(t: Tables, t': Tables)
    requires SessionsOk(t) && Within(t', t)
    ensures SessionsOk(t')
  {
  }

  /** No session has this stream. */
  ghost predicate Unclaimed(t: Tables, id: StreamId) {
    forall s :: s in t.recv && t.recv[s].session.Some? ==>
      id !in t.recv[s].session.value.send && id !in t.recv[s].session.value.recv
  }

  lemma AddedStream(t: Tables, id: StreamId, s: SendEntry, r: RecvEntry)
    requires SessionsOk(t) && Unclaimed(t, id) && (r.session.Some? ==> r.session.value == SubStreams({}, {}))
    ensures SessionsOk(Tables(t.send[id := s], t.recv[id := r]))
  {
  }

  lemma ChangedStream(t: Tables, id: StreamId, v: S.SendView)
    requires SessionsOk(t) && id in t.send
    ensures SessionsOk(t.(send := t.send[id := t.send[id].(view := v)]))
  {
  }

  lemma ChangedAlive(send: map<StreamId, SendEntry>, queued: set<StreamId>, id: StreamId, s: SendEntry)
    requires AllAlive(send, queued) && Alive(s, id in queued)
    ensures AllAlive(send[id := s], queued)
  {
  }

  lemma WrittenAlive(v: S.SendView, room: Option<nat>, buf: S.Payload, queued: bool)
    requires Alive(SendEntry(Http, v), queued)
    ensures Alive(SendEntry(Http, S.DataWritten(v, room, buf)), queued)
  {
    if room.Some? {
      S.DataAccepted(v, room.value, buf);
    }
  }

  lemma ServedAlive(v: S.SendView, room: Option<nat>, queued: bool)
    requires Alive(SendEntry(Http, v), queued) && v.state != S.Done
    ensures Alive(SendEntry(Http, S.ServedBy(v, room)), queued)
  {
  }

  /** Removing a stream that is a message, or a session, leaves the other messages alone. */
  lemma OthersStay(t: Tables, id: StreamId)
    requires SessionsOk(t)
    ensures Within(RemoveSend(t, id), t)
    ensures forall x :: x in t.send && x != id && t.send[x].kind == Http ==> x in RemoveSend(t, id).send
  {
  }

  /** Messages that a GOAWAY is not about are not gone. */
  lemma MessagesBelowStay(t0: Tables, t: Tables, g: StreamId)
    requires SessionsOk(t0) && Explained(t0, t, g)
    ensures forall id :: id in t0.send && id < g && t0.send[id].kind == Http ==>
              id in t.send && t.send[id] == t0.send[id]
    ensures forall id :: id in t0.recv && id < g && t0.recv[id].kind == Http ==>
              id in t.recv && t.recv[id] == t0.recv[id]
  {
  }

  lemma NotAboveIsBelow(t: Tables, g: StreamId)
    requires g % 4 == 0
    requires forall id :: id in t.send ==> !Above(id, g)
    requires forall id :: id in t.recv ==> !Above(id, g)
    ensures forall id :: id in t.send && id % 4 < 2 ==> id < g
    ensures forall id :: id in t.recv && id % 4 < 2 ==> id < g
  {
    LowBits(g);
    forall id: StreamId
      ensures id % 4 < 2 && !Above(id, g) ==> id < g
    {
      LowBits(id);
    }
  }

  ghost predicate Grows(finished: map<StreamId, S.SendView>, finished': map<StreamId, S.SendView>) {
    forall id :: id in finished ==> id in finished' && finished'[id] == finished[id]
  }

  /** One more stream has been served. */
  lemma ServedMore(ids: set<StreamId>, id: StreamId, accept: StreamId -> Option<nat>,
                   s0: map<StreamId, SendEntry>, s: map<StreamId, SendEntry>, s': map<StreamId, SendEntry>,
                   finished: map<StreamId, S.SendView>, finished': map<StreamId, S.SendView>)
    requires id !in ids && id in s && !S.Fails(s[id].view, accept(id))
    requires ServedAll(ids, s0, s, finished, accept) && Untouched(ids, s0, s)
    requires OnlyServed(ids, s0, s, accept) && FailedGone(ids, s0, s, accept)
    requires ServedOne(id, s, s', finished', accept(id)) && Untouched({id}, s, s') && OnlyServed({id}, s, s', accept)
    requires Grows(finished, finished')
    ensures ServedAll(ids + {id}, s0, s', finished', accept) && Untouched(ids + {id}, s0, s')
    ensures OnlyServed(ids + {id}, s0, s', accept) && FailedGone(ids + {id}, s0, s', accept)
  {
  }

  /** What a round has done when it ends early, with the streams `rest` not served. */
  lemma Interrupted(p0: set<StreamId>, rest: set<StreamId>, s0: map<StreamId, SendEntry>,
                    s: map<StreamId, SendEntry>, finished: map<StreamId, S.SendView>, queued: set<StreamId>,
                    accept: StreamId -> Option<nat>)
    requires rest <= p0 && queued !! rest && AllAlive(s, queued + rest)
    requires ServedAll(p0 - rest, s0, s, finished, accept) && Untouched(p0 - rest, s0, s)
    ensures CutShort(p0, s0, s, finished, queued, accept)
  {
  }

  /** If a queued message fails, it is left in the table with bytes that no later round sends. */
  lemma FailedIsLost(p0: set<StreamId>, id: StreamId, s0: map<StreamId, SendEntry>, s: map<StreamId, SendEntry>,
                     finished: map<StreamId, S.SendView>, queued: set<StreamId>, accept: StreamId -> Option<nat>)
    requires CutShort(p0, s0, s, finished, queued, accept) && AllAlive(s0, p0)
    requires id in p0 && id in s0 && s0[id].kind == Http && S.Fails(s0[id].view, accept(id))
    ensures Dropped(id, s0, s, queued) && s[id].view.HasDataToSend() && !AllAlive(s, queued)
  {
  }

  // ----- Rounds -----

  /** The transport takes at least a byte of every stream. */
  ghost predicate Generous(accept: StreamId -> Option<nat>) {
    forall id :: accept(id).Some? && accept(id).value > 0
  }

  /** What the queued streams have left to send. */
  ghost predicate Short(queued: set<StreamId>, s: map<StreamId, SendEntry>, n: nat) {
    forall id :: id in queued && id in s ==> |s[id].view.pending| <= n
  }

  lemma RoundShort(p: set<StreamId>, s: map<StreamId, SendEntry>, p': set<StreamId>, s': map<StreamId, SendEntry>,
                   accept: StreamId -> Option<nat>, n: nat)
    requires Generous(accept) && n > 0 && Short(p, s, n)
    requires Requeued(p, s, p', accept) && OnlyServed(p, s, s', accept)
    ensures Short(p', s', n - 1) && (n == 1 ==> p' == {})
  {
    forall id | id in p'
      ensures |S.ServedBy(s[id].view, accept(id)).pending| < |s[id].view.pending| <= n
    {
      assert accept(id).Some? && accept(id).value > 0;
    }
  }

  /** A message when all of it has been passed on. */
  function Final(v: S.SendView): S.SendView {
    v.(sent := v.sent + v.pending, pending := [], fins := if v.state == S.Done then 1 else v.fins)
  }

  /** A message v0 is in the table with all its bytes, or has left it with them and its end. */
  ghost predicate KeptOne(v0: S.SendView, id: StreamId, s: map<StreamId, SendEntry>, finished: map<StreamId, S.SendView>)
  {
    || (&& id in s && s[id].kind == Http && s[id].view.state == v0.state
        && s[id].view.sent + s[id].view.pending == v0.sent + v0.pending)
    || (v0.state == S.Done && id !in s && id in finished && finished[id] == Final(v0))
  }

  ghost predicate KeptAll(s0: map<StreamId, SendEntry>, s: map<StreamId, SendEntry>, finished: map<StreamId, S.SendView>)
  {
    forall id :: id in s0 && s0[id].kind == Http ==> KeptOne(s0[id].view, id, s, finished)
  }

  lemma ServedKept(v0: S.SendView, v: S.SendView, room: Option<nat>)
    requires v.state == v0.state && v.sent + v.pending == v0.sent + v0.pending && v.fins == 0
    ensures var v' := S.ServedBy(v, room);
            && v'.state == v0.state && v'.sent + v'.pending == v0.sent + v0.pending
            && (room.Some? && v'.IsDone() ==> v' == Final(v0))
  {
    if room.Some? {
      S.ViewsKeep(v, room.value, false);
      assert S.Served(v, room.value).pending == [] ==>
          S.Served(v, room.value).sent == S.Served(v, room.value).sent + S.Served(v, room.value).pending;
    }
  }

  lemma RoundKeeps(s0: map<StreamId, SendEntry>, p: set<StreamId>, s: map<StreamId, SendEntry>,
                   s': map<StreamId, SendEntry>, finished: map<StreamId, S.SendView>,
                   finished': map<StreamId, S.SendView>, accept: StreamId -> Option<nat>)
    requires KeptAll(s0, s, finished) && AllAlive(s, p) && Generous(accept) && Grows(finished, finished')
    requires ServedAll(p, s, s', finished', accept) && Untouched(p, s, s') && OnlyServed(p, s, s', accept)
    ensures KeptAll(s0, s', finished')
  {
    forall id | id in s0 && s0[id].kind == Http
      ensures KeptOne(s0[id].view, id, s', finished')
    {
      assert KeptOne(s0[id].view, id, s, finished);
      if id in s && id in p {
        assert Alive(s[id], true) && accept(id).Some?;
        ServedKept(s0[id].view, s[id].view, accept(id));
      }
    }
  }

  /** Where a message is when nothing is queued any more. */
  lemma AllPassedOn(s0: map<StreamId, SendEntry>, s: map<StreamId, SendEntry>, finished: map<StreamId, S.SendView>,
                    id: StreamId)
    requires KeptAll(s0, s, finished) && AllAlive(s, {}) && id in s0 && s0[id].kind == Http && s0[id].view.fins == 0
    ensures if s0[id].view.state == S.Done then id !in s && id in finished && finished[id] == Final(s0[id].view)
            else id in s && s[id] == SendEntry(Http, Final(s0[id].view))
  {
    assert KeptOne(s0[id].view, id, s, finished);
    if id in s {
      assert Alive(s[id], false);
      assert s[id].view.sent + [] == s[id].view.sent;
    }
  }

  method RemoveAll<V>(table: map<StreamId, V>, ids: set<StreamId>) returns (t: map<StreamId, V>)
    ensures t == table - ids
  {
    t := table;
    var rest := ids;
    while rest != {}
      invariant rest <= ids && t - rest == table - ids
      decreases |rest|
    {
      var id :| id in rest;
      assert (t - {id}) - (rest - {id}) == t - rest;
      rest := rest - {id};
      t := t - {id};
    }
  }

  class Http3Connection {
    // Control and QPACK streams of this end, all unidirectional.
    const critical: set<StreamId>
    var state: ConnectionState
    var sendStreams: map<StreamId, SendEntry>
    var recvStreams: map<StreamId, RecvEntry>
    var pending: set<StreamId>
    ghost var finished: map<StreamId, S.SendView>
    // The finished messages whose stream was gone when they were closed.
    ghost var unended: set<StreamId>
    ghost var goaways: seq<StreamId>

    function Table(): Tables
      reads this
    {
      Tables(sendStreams, recvStreams)
    }

    /** The ids of accepted GOAWAY frames never increase, and the last one is in force until the end. */
    ghost predicate GoawaysOk()
      reads this
    {
      && (forall i, j :: 0 <= i < j < |goaways| ==> goaways[i] >= goaways[j])
      && (state.GoingAway? ==> goaways != [] && state.id == goaways[|goaways| - 1])
      && (goaways != [] ==> state.GoingAway? || state.Closing? || state.Closed?)
    }

    ghost predicate Valid()
      reads this
    {
      && AllAlive(sendStreams, pending) && AllComplete(finished, sendStreams, unended) && SessionsOk(Table())
      && (forall id :: id in critical ==> !IsBidi(id))
      && GoawaysOk()
    }

    constructor (critical: set<StreamId>)
      requires forall id :: id in critical ==> !IsBidi(id)
      ensures Valid() && state == Initializing && sendStreams == map[] && recvStreams == map[] && pending == {}
      ensures finished == map[] && unended == {} && goaways == []
    {
      this.critical := critical;
      state := Initializing;
      sendStreams, recvStreams, pending, finished, unended, goaways := map[], map[], {}, map[], {}, [];
    }

    // ----- Removing streams -----

    method RemoveExtendedConnect(subs: SubStreams)
      modifies this`sendStreams, this`recvStreams
      ensures Table() == DropSession(old(Table()), Some(subs))
    {
      recvStreams := RemoveAll(recvStreams, subs.recv);
      sendStreams := RemoveAll(sendStreams, subs.send);
    }

    method RemoveSendStream(id: StreamId) returns (r: Option<SendEntry>)
      modifies this`sendStreams, this`recvStreams
      ensures Table() == RemoveSend(old(Table()), id)
      ensures r == if id !in old(sendStreams) then None
                   else if old(sendStreams)[id].kind == ExtendedConnect && id !in old(recvStreams) then None
                   else Some(old(sendStreams)[id])
    {
      if id !in sendStreams {
        return None;
      }
      var s := sendStreams[id];
      sendStreams := sendStreams - {id};
      if s.kind == ExtendedConnect {
        if id !in recvStreams {
          return None;
        }
        var session := recvStreams[id].session;
        recvStreams := recvStreams - {id};
        if session.Some? {
          RemoveExtendedConnect(session.value);
        }
      }
      r := Some(s);
    }

    method RemoveRecvStream(id: StreamId) returns (r: Option<RecvEntry>)
      modifies this`sendStreams, this`recvStreams
      ensures Table() == RemoveRecv(old(Table()), id)
      ensures r == if id !in old(recvStreams) then None
                   else if old(recvStreams)[id].kind == ExtendedConnect && id !in old(sendStreams) then None
                   else Some(old(recvStreams)[id])
    {
      if id !in recvStreams {
        return None;
      }
      var s := recvStreams[id];
      recvStreams := recvStreams - {id};
      if s.kind == ExtendedConnect {
        if id !in sendStreams {
          return None;
        }
        sendStreams := sendStreams - {id};
        if s.session.Some? {
          RemoveExtendedConnect(s.session.value);
        }
      }
      r := Some(s);
    }

    // ----- Sending -----

    /** A message or a session enters the tables; ids are not used twice. */
    method AddStreams(id: StreamId, s: SendEntry, r: RecvEntry)
      requires Valid() && id !in sendStreams && id !in finished && id !in recvStreams && Alive(s, true)
      requires Unclaimed(Table(), id) && (r.session.Some? ==> r.session.value == SubStreams({}, {}))
      modifies this`sendStreams, this`recvStreams, this`pending
      ensures Valid() && Table() == Tables(old(sendStreams)[id := s], old(recvStreams)[id := r])
      ensures pending == if s.view.HasDataToSend() then old(pending) + {id} else old(pending)
    {
      if s.view.HasDataToSend() {
        pending := pending + {id};
      }
      AddedStream(Table(), id, s, r);
      ChangedAlive(sendStreams, pending, id, s);
      sendStreams := sendStreams[id := s];
      recvStreams := recvStreams[id := r];
    }

    method StreamHasPendingData(id: StreamId)
      requires Valid()
      modifies this`pending
      ensures Valid() && pending == old(pending) + {id}
    {
      pending := pending + {id};
    }

    /** A stream that has nothing more to send leaves the table. */
    method Retire(id: StreamId, ghost queued: set<StreamId>, ghost noEnd: bool)
      requires id in sendStreams && sendStreams[id].view.IsDone()
      requires sendStreams[id].kind == Http ==> Complete(sendStreams[id].view, noEnd)
      requires AllAlive(sendStreams - {id}, queued)
      requires AllComplete(finished, sendStreams, unended) && SessionsOk(Table())
      modifies this`sendStreams, this`recvStreams, this`finished, this`unended
      ensures AllAlive(sendStreams, queued) && AllComplete(finished, sendStreams, unended) && SessionsOk(Table())
      ensures id !in sendStreams && Table() == RemoveSend(old(Table()), id) && Within(Table(), old(Table()))
      ensures Untouched({id}, old(sendStreams), sendStreams)
      ensures finished == if old(sendStreams)[id].kind == Http then old(finished)[id := old(sendStreams)[id].view]
                          else old(finished)
      ensures unended == if noEnd && old(sendStreams)[id].kind == Http then old(unended) + {id} else old(unended)
    {
      var s := sendStreams[id];
      OthersStay(Table(), id);
      SessionsStay(Table(), RemoveSend(Table(), id));
      if s.kind == Http {
        finished := finished[id := s.view];
        unended := if noEnd then unended + {id} else unended;
      }
      var removed := RemoveSendStream(id);
    }

    /** Give one stream to the transport, which takes what it has room for. */
    method ServeStream(id: StreamId, accept: StreamId -> Option<nat>, ghost rest: set<StreamId>)
      requires id in sendStreams && id !in rest && id !in pending && !S.Fails(sendStreams[id].view, accept(id))
      requires AllAlive(sendStreams, pending + rest + {id})
      requires AllComplete(finished, sendStreams, unended) && SessionsOk(Table())
      modifies this`sendStreams, this`recvStreams, this`pending, this`finished, this`unended
      ensures AllAlive(sendStreams, pending + rest)
      ensures AllComplete(finished, sendStreams, unended) && SessionsOk(Table())
      ensures Grows(old(finished), finished) && unended == old(unended)
      ensures ServedOne(id, old(sendStreams), sendStreams, finished, accept(id))
      ensures Untouched({id}, old(sendStreams), sendStreams) && OnlyServed({id}, old(sendStreams), sendStreams, accept)
      ensures forall x :: x in pending <==>
                x in old(pending) || (x == id && S.ServedBy(old(sendStreams)[id].view, accept(id)).HasDataToSend())
    {
      var s := sendStreams[id];
      var v := S.ServedBy(s.view, accept(id));
      sendStreams := sendStreams[id := SendEntry(s.kind, v)];
      if v.HasDataToSend() {
        pending := pending + {id};
      }
      if v.IsDone() {
        Retire(id, pending + rest, false);
      }
    }

    /** In the middle of a round over the streams p0: all but `toSend` have been served. */
    ghost predicate Serving(p0: set<StreamId>, s0: map<StreamId, SendEntry>, f0: map<StreamId, S.SendView>,
                            toSend: set<StreamId>, accept: StreamId -> Option<nat>)
      reads this
    {
      && toSend <= p0 && pending !! toSend && Requeued(p0 - toSend, s0, pending, accept)
      && AllAlive(sendStreams, pending + toSend)
      && AllComplete(finished, sendStreams, unended) && SessionsOk(Table())
      && ServedAll(p0 - toSend, s0, sendStreams, finished, accept) && Untouched(p0 - toSend, s0, sendStreams)
      && OnlyServed(p0 - toSend, s0, sendStreams, accept) && FailedGone(p0 - toSend, s0, sendStreams, accept)
      && Grows(f0, finished)
    }

    method ServeNext(id: StreamId, accept: StreamId -> Option<nat>, ghost p0: set<StreamId>,
                     ghost s0: map<StreamId, SendEntry>, ghost f0: map<StreamId, S.SendView>,
                     ghost toSend: set<StreamId>)
      returns (r: Res<()>)
      requires id in toSend && Serving(p0, s0, f0, toSend, accept)
      modifies this`sendStreams, this`recvStreams, this`pending, this`finished, this`unended
      ensures Serving(p0, s0, f0, if r.Ok? then toSend - {id} else toSend, accept)
      ensures r.Err? ==> id in s0 && S.Fails(s0[id].view, accept(id))
    {
      ghost var served, rest := p0 - toSend, toSend - {id};
      assert p0 - rest == served + {id};
      if id in sendStreams {
        if S.Fails(sendStreams[id].view, accept(id)) {
          return Err(TransportFailed);
        }
        assert pending + rest + {id} == pending + toSend;
        ServeStream(id, accept, rest);
        ServedMore(served, id, accept, s0, old(sendStreams), sendStreams, old(finished), finished);
      }
      r := Ok(());
    }

    method ServeRound(toSend: set<StreamId>, accept: StreamId -> Option<nat>, ghost s0: map<StreamId, SendEntry>,
                      ghost f0: map<StreamId, S.SendView>)
      returns (r: Res<()>, ghost left: set<StreamId>)
      requires Serving(toSend, s0, f0, toSend, accept)
      modifies this`sendStreams, this`recvStreams, this`pending, this`finished, this`unended
      ensures Serving(toSend, s0, f0, left, accept) && (r.Ok? ==> left == {})
      ensures r.Err? ==> exists id :: id in toSend && id in s0 && S.Fails(s0[id].view, accept(id))
    {
      var rest := toSend;
      while rest != {}
        invariant Serving(toSend, s0, f0, rest, accept)
        decreases |rest|
      {
        var id :| id in rest;
        r := ServeNext(id, accept, toSend, s0, f0, rest);
        if r.Err? {
          left := rest;
          return;
        }
        rest := rest - {id};
      }
      r, left := Ok(()), {};
    }

    /** Serve all streams that have something to send, in any order. `accept` says how much the transport
        takes of each, or that a stream is gone there; if that matters the round ends, and with it the
        connection. */
    method SendNonControlStreams(accept: StreamId -> Option<nat>) returns (r: Res<()>)
      requires Valid()
      modifies this`sendStreams, this`recvStreams, this`pending, this`finished, this`unended
      ensures r.Ok? ==> Valid()
      ensures r.Ok? ==> ServedAll(old(pending), old(sendStreams), sendStreams, finished, accept)
      ensures r.Ok? ==> OnlyServed(old(pending), old(sendStreams), sendStreams, accept)
      ensures r.Ok? ==> FailedGone(old(pending), old(sendStreams), sendStreams, accept)
      ensures r.Ok? ==> Requeued(old(pending), old(sendStreams), pending, accept)
      ensures Untouched(old(pending), old(sendStreams), sendStreams) && Grows(old(finished), finished)
      ensures (forall id :: id in old(pending) && id in old(sendStreams) ==>
                 !S.Fails(old(sendStreams)[id].view, accept(id))) ==> r.Ok?
      ensures forall id :: id in old(pending) && id in old(sendStreams) && old(sendStreams)[id].kind == Http
                           && S.Fails(old(sendStreams)[id].view, accept(id)) ==>
                r.Err? && Dropped(id, old(sendStreams), sendStreams, pending) && sendStreams[id].view.HasDataToSend()
                && !Valid()
      ensures r.Err? ==> CutShort(old(pending), old(sendStreams), sendStreams, finished, pending, accept)
    {
      var toSend := pending;
      pending := {};
      assert pending + toSend == toSend && toSend - toSend == {};
      ghost var left;
      r, left := ServeRound(toSend, accept, sendStreams, finished);
      assert r.Ok? ==> pending + {} == pending && toSend - {} == toSend;
      Interrupted(toSend, left, old(sendStreams), sendStreams, finished, pending, accept);
      assert Untouched(toSend, old(sendStreams), sendStreams);
      forall id | id in toSend && id in old(sendStreams) && old(sendStreams)[id].kind == Http
                  && S.Fails(old(sendStreams)[id].view, accept(id))
        ensures r.Err? && Dropped(id, old(sendStreams), sendStreams, pending) && sendStreams[id].view.HasDataToSend()
                && !AllAlive(sendStreams, pending)
      {
        FailedIsLost(toSend, id, old(sendStreams), sendStreams, finished, pending, accept);
      }
    }

    /** Rounds in which the transport takes at least a byte of every stream, as many as there are bytes in the
        longest queue, empty the queue: all messages have been passed on, and the closed ones have ended. */
    method Drain(rounds: seq<StreamId -> Option<nat>>)
      requires Valid() && rounds != []
      requires forall k, id :: 0 <= k < |rounds| ==> rounds[k](id).Some? && rounds[k](id).value >= 1
      requires forall id :: id in pending && id in sendStreams ==> |sendStreams[id].view.pending| <= |rounds|
      modifies this`sendStreams, this`recvStreams, this`pending, this`finished, this`unended
      ensures Valid() && pending == {}
      ensures forall id :: id in old(sendStreams) && old(sendStreams)[id].kind == Http ==>
                var v := old(sendStreams)[id].view;
                if v.state == S.Done then id !in sendStreams && id in finished && finished[id] == Final(v)
                else id in sendStreams && sendStreams[id] == SendEntry(Http, Final(v))
    {
      for k := 0 to |rounds|
        invariant Valid() && Short(pending, sendStreams, |rounds| - k) && (k == |rounds| ==> pending == {})
        invariant KeptAll(old(sendStreams), sendStreams, finished)
      {
        assert Generous(rounds[k]);
        ghost var p, s, f := pending, sendStreams, finished;
        var r := SendNonControlStreams(rounds[k]);
        RoundShort(p, s, pending, sendStreams, rounds[k], |rounds| - k);
        RoundKeeps(old(sendStreams), p, s, sendStreams, f, finished, rounds[k]);
      }
      forall id | id in old(sendStreams) && old(sendStreams)[id].kind == Http
        ensures var v := old(sendStreams)[id].view;
                if v.state == S.Done then id !in sendStreams && id in finished && finished[id] == Final(v)
                else id in sendStreams && sendStreams[id] == SendEntry(Http, Final(v))
      {
        assert old(Alive(sendStreams[id], id in pending));
        AllPassedOn(old(sendStreams), sendStreams, finished, id);
      }
    }

    /** The application closes a message. Whether that works out, because the stream may be gone, is not
        reported: a message that has been passed on leaves the table in any case. */
    method StreamCloseSend(id: StreamId, gone: bool) returns (r: Res<()>)
      requires Valid() && Active(state)
      modifies this`sendStreams, this`recvStreams, this`pending, this`finished, this`unended
      ensures Valid()
      ensures r == if id in old(sendStreams) then Ok(()) else Err(InvalidStreamId)
      ensures r.Err? ==> Table() == old(Table()) && pending == old(pending) && finished == old(finished)
      ensures r.Ok? ==>
                var v := S.Ended(old(sendStreams)[id].view, gone);
                pending == old(pending) + (if !v.IsDone() && v.HasDataToSend() then {id} else {})
      ensures r.Ok? && old(sendStreams)[id].kind == Http ==>
                var v := S.Ended(old(sendStreams)[id].view, gone);
                if v.IsDone() then id !in sendStreams && id in finished && finished[id] == v && (id in unended <==> gone)
                else sendStreams == old(sendStreams)[id := SendEntry(Http, v)]
      ensures r.Ok? && old(sendStreams)[id].kind == Http ==> recvStreams == old(recvStreams)
      ensures Untouched({id}, old(sendStreams), sendStreams)
    {
      if id !in sendStreams {
        return Err(InvalidStreamId);
      }
      var s := sendStreams[id];
      var v := S.Ended(s.view, gone);
      sendStreams := sendStreams[id := SendEntry(s.kind, v)];
      if v.IsDone() {
        Retire(id, pending, gone);
      } else if v.HasDataToSend() {
        pending := pending + {id};
      }
      r := Ok(());
    }

    // ----- Streams that end irregularly -----

    method CloseSend(id: StreamId)
      requires Valid()
      modifies this`sendStreams, this`recvStreams
      ensures Valid() && Table() == RemoveSend(old(Table()), id)
    {
      OthersStay(Table(), id);
      SessionsStay(Table(), RemoveSend(Table(), id));
      var removed := RemoveSendStream(id);
    }

    method HandleStreamStopSending(id: StreamId) returns (r: Res<()>)
      requires Valid()
      modifies this`sendStreams, this`recvStreams
      ensures Valid()
      ensures if id in critical then r == Err(HttpClosedCriticalStream) && Table() == old(Table())
              else r == Ok(()) && Table() == RemoveSend(old(Table()), id)
    {
      if id in critical {
        return Err(HttpClosedCriticalStream);
      }
      CloseSend(id);
      r := Ok(());
    }

    method HandleStreamReset(id: StreamId)
      requires Valid()
      modifies this`sendStreams, this`recvStreams
      ensures Valid() && Table() == RemoveRecv(old(Table()), id)
    {
      assert Within(RemoveRecv(Table(), id), Table());
      SessionsStay(Table(), RemoveRecv(Table(), id));
      var removed := RemoveRecvStream(id);
    }

    // ----- Requests and GOAWAY -----

    /** A new request or session needs a stream, which is refused once the connection is going away. */
    method CreateBidiTransportStream(fresh_: Option<StreamId>) returns (r: Res<StreamId>)
      requires Valid()
      ensures r.Ok? <==> (state.Connected? || state.ZeroRtt?) && fresh_.Some?
      ensures r.Ok? ==> r.value == fresh_.value && goaways == []
      ensures r.Err? ==> r.error == (if state.Initializing? then Unavailable
                                     else if state.Connected? || state.ZeroRtt? then TransportFailed
                                     else AlreadyClosed)
    {
      match state {
        case GoingAway(_) => return Err(AlreadyClosed);
        case Closing => return Err(AlreadyClosed);
        case Closed => return Err(AlreadyClosed);
        case Initializing => return Err(Unavailable);
        case _ => return if fresh_.Some? then Ok(fresh_.value) else Err(TransportFailed);
      }
    }

    /** The view of a message changes. */
    method Replace(id: StreamId, v: S.SendView)
      requires Valid() && id in sendStreams && sendStreams[id].kind == Http
      requires Alive(SendEntry(Http, v), id in pending)
      modifies this`sendStreams
      ensures Valid() && sendStreams == old(sendStreams)[id := SendEntry(Http, v)]
    {
      ChangedStream(Table(), id, v);
      ChangedAlive(sendStreams, pending, id, SendEntry(Http, v));
      sendStreams := sendStreams[id := SendEntry(Http, v)];
    }

    /** Send what the transport takes, without waiting for the next round. */
    method SendNow(id: StreamId, room: Option<nat>)
      requires Valid() && id in sendStreams && sendStreams[id].kind == Http && sendStreams[id].view.state != S.Done
      modifies this`sendStreams
      ensures Valid()
      ensures sendStreams == old(sendStreams)[id := SendEntry(Http, S.ServedBy(old(sendStreams)[id].view, room))]
    {
      assert Alive(sendStreams[id], id in pending);
      ServedAlive(sendStreams[id].view, room, id in pending);
      Replace(id, S.ServedBy(sendStreams[id].view, room));
    }

    /** The application writes to a message while the transport has this much room for it. */
    method StreamSendData(id: StreamId, buf: S.Payload, room: Option<nat>) returns (r: Res<nat>)
      requires Valid() && (id in sendStreams ==> sendStreams[id].kind == Http)
      modifies this`sendStreams
      ensures Valid()
      ensures r == Err(InvalidStreamId) <==> id !in old(sendStreams)
      ensures id !in old(sendStreams) ==> sendStreams == old(sendStreams)
      ensures id in old(sendStreams) ==>
                && var v := old(sendStreams)[id].view;
                && sendStreams == old(sendStreams)[id := SendEntry(Http, S.DataWritten(v, room, buf))]
                && match S.DataTaken(v, room, buf)
                   case Ok(n) => r == Ok(n)
                   case Err(e) =>
                     r == Err(if e == S.TransportRefused(T.InvalidStreamId) then TransportFailed else InvalidInput)
    {
      if id !in sendStreams {
        return Err(InvalidStreamId);
      }
      var v := sendStreams[id].view;
      var taken := S.DataTaken(v, room, buf);
      r := if taken.Ok? then Ok(taken.value)
           else if taken.error == S.TransportRefused(T.InvalidStreamId) then Err(TransportFailed)
           else Err(InvalidInput);
      assert Alive(sendStreams[id], id in pending);
      WrittenAlive(v, room, buf, id in pending);
      Replace(id, S.DataWritten(v, room, buf));
    }

    /** The application of a message queues a header section, with this frame. */
    method SendHeaders(id: StreamId, mt: MessageType, headers: seq<Header>, frame: seq<byte>) returns (r: Res<()>)
      requires Valid() && (id in sendStreams ==> sendStreams[id].kind == Http)
      modifies this`sendStreams, this`pending
      ensures Valid()
      ensures r == Err(InvalidStreamId) <==> id !in old(sendStreams)
      ensures r.Ok? <==> id in old(sendStreams) && S.HeadersQueued(mt, old(sendStreams)[id].view, headers, frame).Some?
      ensures r.Ok? ==>
                && var v := S.HeadersQueued(mt, old(sendStreams)[id].view, headers, frame).value;
                && sendStreams == old(sendStreams)[id := SendEntry(Http, v)] && pending == old(pending) + {id}
      ensures r.Err? ==> sendStreams == old(sendStreams) && pending == old(pending)
    {
      if id !in sendStreams {
        return Err(InvalidStreamId);
      }
      var v := S.HeadersQueued(mt, sendStreams[id].view, headers, frame);
      if v.None? {
        return Err(InvalidInput);
      }
      assert Alive(sendStreams[id], id in pending);
      StreamHasPendingData(id);
      Replace(id, v.value);
      r := Ok(());
    }

    /** Send a request: a new stream, if the transport has one, for a message v whose header section has been
        queued, if there is one. The transport takes some of it at once, or fails, which leaves the stream in
        the tables. */
    method Request(id: Option<StreamId>, v: Option<S.SendView>, room: Option<nat>) returns (r: Res<StreamId>)
      requires Valid()
      requires id.Some? ==> id.value !in sendStreams && id.value !in finished && id.value !in recvStreams
      requires id.Some? ==> Unclaimed(Table(), id.value)
      requires v.Some? ==> v.value.state == S.WaitingForData && v.value.fins == 0
      modifies this`sendStreams, this`recvStreams, this`pending
      ensures Valid()
      ensures r.Ok? <==> Admitted(id, v) && !S.Fails(v.value, room)
      ensures !Admitted(id, v) ==> Table() == old(Table()) && pending == old(pending)
      ensures Admitted(id, v) ==>
                && sendStreams == old(sendStreams)[id.value := SendEntry(Http, S.ServedBy(v.value, room))]
                && recvStreams == old(recvStreams)[id.value := RecvEntry(Http, None)]
                && pending == if v.value.HasDataToSend() then old(pending) + {id.value} else old(pending)
    {
      r := CreateBidiTransportStream(id);
      if r.Err? {
        return;
      }
      if v.None? {
        return Err(InvalidInput);
      }
      AddStreams(id.value, SendEntry(Http, v.value), RecvEntry(Http, None));
      SendNow(id.value, room);
      if S.Fails(v.value, room) {
        r := Err(TransportFailed);
      }
    }

    ghost predicate Admitted(id: Option<StreamId>, v: Option<S.SendView>)
      reads this
    {
      (state.Connected? || state.ZeroRtt?) && id.Some? && v.Some?
    }

    /** The transport handshake is complete. */
    method HandleConnected()
      requires Valid() && (state.Initializing? || state.ZeroRtt?)
      modifies this`state
      ensures Valid() && state == Connected
    {
      state := Connected;
    }

    method HandleClosing(closed: bool)
      requires Valid()
      modifies this`state
      ensures Valid() && state == if closed || old(state).Closed? then Closed else Closing
    {
      state := if closed || state.Closed? then Closed else Closing;
    }

    /** Reset the sending side of the streams that the GOAWAY is about. */
    method RejectSends(g: StreamId, ghost t0: Tables)
      requires Valid() && IsBidi(g) && Explained(t0, Table(), g)
      modifies this`sendStreams, this`recvStreams
      ensures Valid() && Explained(t0, Table(), g)
      ensures forall id :: id in sendStreams ==> !Above(id, g)
    {
      var ids: set<StreamId> := set id: StreamId | id in sendStreams && Above(id, g);
      while ids != {}
        invariant Valid() && Explained(t0, Table(), g)
        invariant forall id :: id in ids ==> Above(id, g)
        invariant forall id :: id in sendStreams && Above(id, g) ==> id in ids
        decreases |ids|
      {
        var id :| id in ids;
        RemoveSendExplained(t0, Table(), id, g);
        var ignored := HandleStreamStopSending(id);
        ids := ids - {id};
      }
    }

    /** And the receiving side. */
    method RejectRecvs(g: StreamId, ghost t0: Tables)
      requires Valid() && Explained(t0, Table(), g)
      requires forall id :: id in sendStreams ==> !Above(id, g)
      modifies this`sendStreams, this`recvStreams
      ensures Valid() && Explained(t0, Table(), g)
      ensures forall id :: id in sendStreams ==> !Above(id, g)
      ensures forall id :: id in recvStreams ==> !Above(id, g)
    {
      var ids: set<StreamId> := set id: StreamId | id in recvStreams && Above(id, g);
      while ids != {}
        invariant Valid() && Explained(t0, Table(), g)
        invariant forall id :: id in ids ==> Above(id, g)
        invariant forall id :: id in sendStreams ==> !Above(id, g)
        invariant forall id :: id in recvStreams && Above(id, g) ==> id in ids
        decreases |ids|
      {
        var id :| id in ids;
        RemoveRecvExplained(t0, Table(), id, g);
        HandleStreamReset(id);
        ids := ids - {id};
      }
    }

    /** The server is going away and has not seen, and will not see, the requests from g on. */
    method HandleGoaway(g: StreamId) returns (r: Res<()>)
      requires Valid() && !state.Initializing? && !state.ZeroRtt?
      modifies this`state, this`goaways, this`sendStreams, this`recvStreams
      ensures Valid()
      ensures r.Err? ==> state == old(state) && Table() == old(Table())
      ensures r == if g % 4 != 0 then Err(HttpId)
                   else if old(state).GoingAway? && g > old(state).id then Err(HttpGoaway)
                   else Ok(())
      ensures r.Ok? ==> forall id :: id in sendStreams && id % 4 < 2 ==> id < g
      ensures r.Ok? ==> forall id :: id in recvStreams && id % 4 < 2 ==> id < g
      ensures forall id :: id in old(sendStreams) && id < g && old(sendStreams)[id].kind == Http ==>
                id in sendStreams && sendStreams[id] == old(sendStreams)[id]
      ensures forall id :: id in old(recvStreams) && id < g && old(recvStreams)[id].kind == Http ==>
                id in recvStreams && recvStreams[id] == old(recvStreams)[id]
      ensures r.Ok? ==> Explained(old(Table()), Table(), g)
      ensures r.Ok? ==> state == if old(state).Closing? || old(state).Closed? then old(state) else GoingAway(g)
      ensures goaways == if r.Ok? && state.GoingAway? then old(goaways) + [g] else old(goaways)
    {
      LowBits(g);
      if !IsBidi(g) || IsServerInitiated(g) {
        return Err(HttpId);
      }
      match state {
        case Connected =>
          state := GoingAway(g);
          goaways := goaways + [g];
        case GoingAway(id) =>
          if g > id {
            return Err(HttpGoaway);
          }
          state := GoingAway(g);
          goaways := goaways + [g];
        case _ =>
      }
      RejectSends(g, old(Table()));
      RejectRecvs(g, old(Table()));
      MessagesBelowStay(old(Table()), Table(), g);
      NotAboveIsBelow(Table(), g);
      r := Ok(());
    }
  }

  /** A message can be dropped with its bytes: its stream is gone when its turn comes. */
  method MessageDropped() returns (c: Http3Connection)
    ensures 0 in c.sendStreams && c.sendStreams[0].view.pending == [1] && 0 !in c.pending && !c.Valid()
  {
    c := new Http3Connection({});
    c.HandleConnected();
    var id := c.Request(Some(0), Some(S.SendView(S.WaitingForData, [], [1], 0)), Some(0));
    var r := c.SendNonControlStreams(_ => None);
  }
}
