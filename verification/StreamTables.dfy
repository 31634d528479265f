/** The two stream tables of an HTTP/3 connection. A session (Extended CONNECT) is in both of them and has
    streams of its own; when it goes, they go.
 */
module StreamTables {
  import opened Bits
  import opened SendMessages

  type StreamId = nat

  predicate IsBidi(id: StreamId) {
    id / 2 % 2 == 0
  }

  predicate IsServerInitiated(id: StreamId) {
    id % 2 == 1
  }

  /** The two low bits of an id say who opened the stream, and in which directions it goes. */
  lemma LowBits(id: StreamId)
    ensures IsBidi(id) <==> id % 4 < 2
    ensures IsBidi(id) && !IsServerInitiated(id) <==> id % 4 == 0
  {
    var q, m := id / 4, id % 4;
    assert id == 4 * q + m && id / 2 == 2 * q + m / 2;
  }

  datatype StreamType = Http | ExtendedConnect | WebTransport | Critical

  /** The streams that belong to a session. */
  datatype SubStreams = SubStreams(recv: set<StreamId>, send: set<StreamId>)

  datatype SendEntry = SendEntry(kind: StreamType, view: SendView)
  datatype RecvEntry = RecvEntry(kind: StreamType, session: Option<SubStreams>)

  datatype Tables = Tables(send: map<StreamId, SendEntry>, recv: map<StreamId, RecvEntry>)

  function DropSession(t: Tables, session: Option<SubStreams>): Tables {
    if session.None? then t else Tables(t.send - session.value.send, t.recv - session.value.recv)
  }

  function RemoveSend(t: Tables, id: StreamId): Tables {
    if id !in t.send then t
    else
      var t' := t.(send := t.send - {id});
      if t.send[id].kind == ExtendedConnect && id in t.recv
      then DropSession(t'.(recv := t.recv - {id}), t.recv[id].session)
      else t'
  }

  function RemoveRecv(t: Tables, id: StreamId): Tables {
    if id !in t.recv then t
    else
      var t' := t.(recv := t.recv - {id});
      if t.recv[id].kind == ExtendedConnect && id in t.send
      then DropSession(t'.(send := t.send - {id}), t.recv[id].session)
      else t'
  }

  /** Nothing is added or changed. */
  ghost predicate Within(t: Tables, t0: Tables) {
    && (forall id :: id in t.send ==> id in t0.send && t.send[id] == t0.send[id])
    && (forall id :: id in t.recv ==> id in t0.recv && t.recv[id] == t0.recv[id])
  }

  /** The streams that a GOAWAY for g is about: same direction, and not below g. */
  predicate Above(id: StreamId, g: StreamId) {
    id >= g && IsBidi(id) == IsBidi(g)
  }

  /** A session that the GOAWAY is about and that is gone. */
  predicate SessionGone(s: StreamId, t0: Tables, t: Tables, g: StreamId) {
    Above(s, g) && s in t0.recv && s !in t.recv && t0.recv[s].session.Some?
  }

  predicate SendExplained(id: StreamId, t0: Tables, t: Tables, g: StreamId) {
    Above(id, g) || exists s :: s in t0.recv && SessionGone(s, t0, t, g) && id in t0.recv[s].session.value.send
  }

  predicate RecvExplained(id: StreamId, t0: Tables, t: Tables, g: StreamId) {
    Above(id, g) || exists s :: s in t0.recv && SessionGone(s, t0, t, g) && id in t0.recv[s].session.value.recv
  }

  /** Every stream that is gone is one that the GOAWAY is about, or belongs to such a session. */
  ghost predicate Explained(t0: Tables, t: Tables, g: StreamId) {
    && Within(t, t0)
    && (forall id :: id in t0.send && id !in t.send ==> SendExplained(id, t0, t, g))
    && (forall id :: id in t0.recv && id !in t.recv ==> RecvExplained(id, t0, t, g))
  }

  /** A session takes its streams with it, whichever half of it goes first. */
  lemma SessionRemoved(t: Tables, id: StreamId)
    requires id in t.send && id in t.recv && t.recv[id].session.Some?
    ensures t.send[id].kind == ExtendedConnect ==> NothingLeft(RemoveSend(t, id), id, t.recv[id].session.value)
    ensures t.recv[id].kind == ExtendedConnect ==> NothingLeft(RemoveRecv(t, id), id, t.recv[id].session.value)
  {
  }

  ghost predicate NothingLeft(t: Tables, id: StreamId, subs: SubStreams) {
    && id !in t.send && id !in t.recv
    && (forall x :: x in subs.send ==> x !in t.send)
    && (forall x :: x in subs.recv ==> x !in t.recv)
  }

  /** Everything else stays, and all of it if the stream is not a session. */
  lemma OthersNotRemoved(t: Tables, id: StreamId, x: StreamId)
    requires x != id
    requires id in t.recv && t.recv[id].session.Some? ==> x !in t.recv[id].session.value.send + t.recv[id].session.value.recv
    ensures x in t.send ==> x in RemoveSend(t, id).send && x in RemoveRecv(t, id).send
    ensures x in t.recv ==> x in RemoveSend(t, id).recv && x in RemoveRecv(t, id).recv
  {
  }

  lemma MessageRemoved(t: Tables, id: StreamId)
    ensures id in t.send && t.send[id].kind != ExtendedConnect ==>
              RemoveSend(t, id).recv == t.recv && RemoveSend(t, id).send.Keys == t.send.Keys - {id}
    ensures id in t.recv && t.recv[id].kind != ExtendedConnect ==>
              RemoveRecv(t, id).send == t.send && RemoveRecv(t, id).recv.Keys == t.recv.Keys - {id}
  {
  }

  lemma RemoveSendExplained(t0: Tables, t: Tables, id: StreamId, g: StreamId)
    requires Explained(t0, t, g) && Above(id, g)
    ensures Explained(t0, RemoveSend(t, id), g) && id !in RemoveSend(t, id).send
    ensures Within(RemoveSend(t, id), t)
  {
  }

  lemma RemoveRecvExplained(t0: Tables, t: Tables, id: StreamId, g: StreamId)
    requires Explained(t0, t, g) && Above(id, g)
    ensures Explained(t0, RemoveRecv(t, id), g) && id !in RemoveRecv(t, id).recv
    ensures Within(RemoveRecv(t, id), t)
  {
  }
}
