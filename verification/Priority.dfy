/** Priority updates (RFC 9218): the application changes the priority of a request, and the control stream
    tells the peer, as soon as flow control lets it and no sooner. No update is lost on the way.
 */
module Priorities {
  import opened Bits
  import opened Varint
  import opened Transport
  import opened BufferedSendStreams
  import Frames

  type StreamId = varint

  datatype Priority = Priority(urgency: nat, incremental: bool)

  /** Urgencies go from 0 to 7. */
  type priority = p: Priority | p.urgency < 8 witness Priority(3, false)

  // ----- The frame -----

  /** The priority as a structured field; what is left out has its default. */
  function Text(p: priority): seq<byte> {
    var u: seq<byte> := if p.urgency == 3 then [] else ['u' as byte, '=' as byte, '0' as byte + p.urgency];
    var i: seq<byte> :=
      if !p.incremental then [] else if p.urgency == 3 then ['i' as byte] else [',' as byte, 'i' as byte];
    u + i
  }

  function Payload(id: StreamId, p: priority): seq<byte> {
    EncodeVarint(id) + Text(p)
  }

  function UpdateFrame(id: StreamId, p: priority): (f: seq<byte>)
    ensures f != []
  {
    EncodeVarint(Frames.PRIORITY_UPDATE_REQUEST) + (EncodeVarint(|Payload(id, p)|) + Payload(id, p))
  }

  /** Reading a priority (section 4 of RFC 9218), in numbers: members between commas, "u=" with a digit from 0 to 7
      and "i", on top of the defaults. */
  ghost function ReadText(s: seq<byte>): Option<priority> {
    if s == [] then Some(Priority(3, false)) else ReadMembers(Members(s), Priority(3, false))
  }

  ghost function Members(s: seq<byte>): seq<seq<byte>> {
    if s == [] then [[]]
    else
      var more := Members(s[1..]);
      if s[0] == 0x2c || more == [] then [[]] + more else [[s[0]] + more[0]] + more[1..]
  }

  ghost function ReadMembers(ms: seq<seq<byte>>, p: priority): Option<priority> {
    if ms == [] then Some(p)
    else
      var q := ReadMember(ms[0], p);
      if q.None? then None else ReadMembers(ms[1..], q.value)
  }

  ghost function ReadMember(m: seq<byte>, p: priority): Option<priority> {
    if |m| == 3 && m[0] == 0x75 && m[1] == 0x3d && 0x30 <= m[2] <= 0x37 then Some(Priority(m[2] - 0x30, p.incremental))
    else if m == [0x69] then Some(Priority(p.urgency, true))
    else None
  }

  lemma LastMember(a: seq<byte>)
    requires forall i :: 0 <= i < |a| ==> a[i] != 0x2c
    ensures Members(a) == [a]
  {
    if a != [] {
      LastMember(a[1..]);
      assert [a[0]] + a[1..] == a;
    }
  }

  lemma FirstMember(a: seq<byte>, rest: seq<byte>)
    requires forall i :: 0 <= i < |a| ==> a[i] != 0x2c
    ensures Members(a + [0x2c] + rest) == [a] + Members(rest)
  {
    var s := a + [0x2c] + rest;
    if a == [] {
      assert s[1..] == rest;
    } else {
      assert s[1..] == a[1..] + [0x2c] + rest;
      FirstMember(a[1..], rest);
      assert [a[0]] + a[1..] == a;
    }
  }

  lemma OneMember(m: seq<byte>, p: priority)
    ensures ReadMembers([m], p) == ReadMember(m, p)
  {
    assert [m][1..] == [];
  }

  lemma TwoMembers(m: seq<byte>, m': seq<byte>, p: priority)
    requires ReadMember(m, p).Some?
    ensures ReadMembers([m] + [m'], p) == ReadMember(m', ReadMember(m, p).value)
  {
    assert ([m] + [m'])[1..] == [m'];
    OneMember(m', ReadMember(m, p).value);
  }

  /** The reader gets the priority that was written. */
  lemma TextRead(p: priority)
    ensures ReadText(Text(p)) == Some(p)
  {
    var u: seq<byte> := [0x75, 0x3d, 0x30 + p.urgency];
    var i: seq<byte> := [0x69];
    var start: priority := Priority(3, false);
    if p.urgency == 3 && p.incremental {
      assert Text(p) == i;
      LastMember(i);
      OneMember(i, start);
    } else if p.urgency != 3 && !p.incremental {
      assert Text(p) == u;
      LastMember(u);
      OneMember(u, start);
    } else if p.urgency != 3 {
      assert Text(p) == u + [0x2c] + i;
      FirstMember(u, i);
      LastMember(i);
      TwoMembers(u, i, start);
    }
  }

  /** The frame type of RFC 9218 is written in four bytes. */
  lemma UpdateFrameType(id: StreamId, p: priority)
    ensures [0x80, 0x0f, 0x07, 0x00] <= UpdateFrame(id, p)
  {
    EncodedInFour(Frames.PRIORITY_UPDATE_REQUEST, 0, 0x0f, 0x07, 0);
  }

  lemma TextInjective(p: priority, q: priority)
    requires Text(p) == Text(q)
    ensures p == q
  {
    if p.urgency != 3 && q.urgency != 3 {
      assert Text(p)[2] == Text(q)[2];
    }
  }

  /** The frame says which stream and which priority, also when more bytes follow. */
  lemma UpdateFrameInjective(id: StreamId, p: priority, rest: seq<byte>, id': StreamId, p': priority, rest': seq<byte>)
    requires UpdateFrame(id, p) + rest == UpdateFrame(id', p') + rest'
    ensures id == id' && p == p' && rest == rest'
  {
    var t := EncodeVarint(Frames.PRIORITY_UPDATE_REQUEST);
    var l, l' := EncodeVarint(|Payload(id, p)|), EncodeVarint(|Payload(id', p')|);
    ConcatAssoc(t, l + Payload(id, p), rest);
    ConcatAssoc(t, l' + Payload(id', p'), rest');
    ConcatInjective(t, l + Payload(id, p) + rest, t, l' + Payload(id', p') + rest');
    ConcatAssoc(l, Payload(id, p), rest);
    ConcatAssoc(l', Payload(id', p'), rest');
    SameVarint(|Payload(id, p)|, Payload(id, p) + rest, |Payload(id', p')|, Payload(id', p') + rest');
    ConcatInjective(Payload(id, p), rest, Payload(id', p'), rest');
    SameVarint(id, Text(p), id', Text(p'));
    TextInjective(p, p');
  }

  lemma SameVarint(v: varint, rest: seq<byte>, v': varint, rest': seq<byte>)
    requires EncodeVarint(v) + rest == EncodeVarint(v') + rest'
    ensures v == v' && rest == rest'
  {
    VarintRoundTrip(v, rest);
    VarintRoundTrip(v', rest');
    ConcatInjective(EncodeVarint(v), rest, EncodeVarint(v'), rest');
  }

  // ----- What has been sent -----

  datatype Update = Update(id: StreamId, value: priority)

  ghost function UpdateBytes(log: seq<Update>): seq<byte>
    decreases |log|
  {
    if log == [] then []
    else
      var u := log[|log| - 1];
      UpdateBytes(log[..|log| - 1]) + UpdateFrame(u.id, u.value)
  }

  /** What the peer knows: the last update for the stream, or the priority that it started with. */
  ghost function Told(log: seq<Update>, id: StreamId, initial: priority): priority
    decreases |log|
  {
    if log == [] then initial
    else if log[|log| - 1].id == id then log[|log| - 1].value
    else Told(log[..|log| - 1], id, initial)
  }

  lemma LogAppend(log: seq<Update>, u: Update)
    ensures UpdateBytes(log + [u]) == UpdateBytes(log) + UpdateFrame(u.id, u.value)
  {
  }

  lemma ToldAppend(log: seq<Update>, u: Update, id: StreamId, initial: priority)
    ensures Told(log + [u], id, initial) == if id == u.id then u.value else Told(log, id, initial)
  {
  }

  class PriorityHandler {
    var value: priority
    var lastSent: priority
    ghost const initial: priority

    constructor (p: priority)
      ensures value == p && lastSent == p && initial == p
    {
      value, lastSent, initial := p, p, p;
    }

    /** Whether an update is due. */
    method MaybeUpdatePriority(p: priority) returns (due: bool)
      modifies this`value
      ensures value == p && due == (p != old(value))
    {
      due := p != value;
      if due {
        value := p;
      }
    }

    method PriorityUpdateSent()
      modifies this`lastSent
      ensures lastSent == value
    {
      lastSent := value;
    }

    function MaybeEncodeFrame(id: StreamId): Option<seq<byte>>
      reads this
    {
      if value == lastSent then None else Some(UpdateFrame(id, value))
    }
  }

  // ----- The control stream -----

  class ControlStreamLocal {
    const stream: BufferedStream
    var outstanding: seq<StreamId>
    // The requests of the connection, and the updates that the transport has taken.
    var requests: map<StreamId, PriorityHandler>
    ghost var log: seq<Update>

    /** What the handler of a request takes for the last update is the last update, and if that is not the
        current priority, an update is outstanding. */
    ghost predicate Tracked(id: StreamId)
      requires id in requests
      reads this, requests.Values
    {
      var h := requests[id];
      && h.lastSent == Told(log, id, h.initial)
      && (h.value != h.lastSent ==> id in outstanding)
    }

    ghost predicate Valid()
      reads this, requests.Values
    {
      && (forall i, j :: i in requests && j in requests && i != j ==> requests[i] != requests[j])
      && (forall id :: id in requests ==> Tracked(id))
    }

    constructor ()
      ensures Valid() && fresh(stream) && stream.buf == None && requests == map[] && log == [] && outstanding == []
    {
      stream := new BufferedStream.Uninitialized();
      outstanding, requests, log := [], map[], [];
    }

    /** Create the stream: its first byte is its type. */
    method Create()
      requires stream.buf == None
      modifies stream
      ensures stream.buf == Some([0])
    {
      stream.Init();
      stream.Buffer([0]);
      assert [] + [0] == [0];
    }

    /** A new request; its priority is in its header section. */
    method AddRequest(id: StreamId, p: priority)
      requires Valid() && id !in requests && forall u :: u in log ==> u.id != id
      modifies this`requests
      ensures Valid() && requests.Keys == old(requests).Keys + {id}
      ensures fresh(requests[id]) && requests == old(requests)[id := requests[id]]
      ensures requests[id].value == p && requests[id].lastSent == p
    {
      var h := new PriorityHandler(p);
      NeverTold(log, id, p);
      forall x | x in requests
        ensures old(Tracked(x))
      {
      }
      requests := requests[id := h];
    }

    /** A request is over; what is outstanding for it will be skipped. */
    method RemoveRequest(id: StreamId)
      requires Valid()
      modifies this`requests
      ensures Valid() && requests == old(requests) - {id}
    {
      forall x | x in requests
        ensures old(Tracked(x))
      {
      }
      requests := requests - {id};
    }

    method QueueUpdatePriority(id: StreamId, p: priority) returns (r: Option<bool>)
      requires Valid()
      modifies this`outstanding, requests.Values
      ensures Valid() && requests == old(requests)
      ensures r.None? <==> id !in requests
      ensures r.Some? ==> requests[id].value == p && r.value == (old(requests[id].value) != p)
      ensures outstanding == if r == Some(true) then old(outstanding) + [id] else old(outstanding)
      ensures forall x :: x in requests && x != id ==> requests[x].value == old(requests[x].value)
      ensures forall x :: x in requests ==> requests[x].lastSent == old(requests[x].lastSent)
    {
      if id !in requests {
        return None;
      }
      assert Tracked(id);
      var due := requests[id].MaybeUpdatePriority(p);
      if due {
        outstanding := outstanding + [id];
      }
      forall x | x in requests
        ensures Tracked(x)
      {
        assert old(Tracked(x));
      }
      r := Some(due);
    }

    ghost predicate Due(id: StreamId)
      reads this, requests.Values
    {
      id in requests && requests[id].value != requests[id].lastSent
    }

    /** The first update has become irrelevant. */
    method Skip()
      requires Valid() && outstanding != [] && !Due(outstanding[0])
      modifies this`outstanding
      ensures Valid() && outstanding == old(outstanding)[1..]
    {
      outstanding := outstanding[1..];
      forall x | x in requests
        ensures Tracked(x)
      {
        assert old(Tracked(x));
        if Due(x) {
          StillQueued(old(outstanding), x);
        }
      }
    }

    /** The stream has been closed or is gone: the transport takes nothing more. */
    predicate Stuck(tr: SendEnd)
      reads stream, tr
    {
      (tr.closed || tr.gone) && stream.buf.Some?
    }

    /** The update for this request cannot go out yet. */
    ghost predicate Waits(id: StreamId, tr: SendEnd)
      requires id in requests
      reads this, requests.Values, stream, tr
    {
      stream.buf.None? || stream.HasBufferedData() || |UpdateFrame(id, requests[id].value)| > tr.avail
    }

    /** The space that each request's update takes. */
    ghost function Sizes(): map<StreamId, nat>
      reads this, requests.Values
    {
      map id | id in requests :: |UpdateFrame(id, requests[id].value)|
    }

    /** The stream is open, and there is room for what is buffered and for every update that is due. */
    ghost predicate Room(tr: SendEnd)
      reads this, requests.Values, stream, tr
    {
      && stream.buf.Some? && !tr.closed && !tr.gone
      && DueBytes(outstanding, DueIds(), Sizes()) <= stream.Free(tr)
    }

    ghost function DueIds(): set<StreamId>
      reads this, requests.Values
    {
      set id | id in requests && Due(id)
    }

    /** Only the handler of this request can have changed: an update was sent, or not. */
    twostate predicate OneTold(id: StreamId, sent: bool)
      requires id in requests && requests == old(requests)
      reads this, requests.Values
    {
      && requests[id].lastSent == (if sent then requests[id].value else old(requests[id].lastSent))
      && (forall x :: x in requests && x != id ==> requests[x].lastSent == old(requests[x].lastSent))
      && (forall x :: x in requests ==> requests[x].value == old(requests[x].value))
    }

    /** Send the first update. Sent(false) means that it has to wait, and it keeps its place. If the transport
        takes nothing more, it is lost. */
    method SendFirst(tr: SendEnd) returns (r: SendResult<bool>, ghost more: seq<Update>)
      requires Valid() && outstanding != [] && Due(outstanding[0])
      modifies this`outstanding, this`log, stream, tr, requests.Values`lastSent
      ensures r.Sent? ==> Valid()
      ensures r.Refused? <==> Stuck(tr)
      ensures Stuck(tr) ==> more == []
      ensures DueIds() == if r == Sent(true) then old(DueIds()) - {old(outstanding)[0]} else old(DueIds())
      ensures outstanding == if r == Sent(false) then old(outstanding) else old(outstanding)[1..]
      ensures r == Sent(false) ==> Due(outstanding[0]) && Waits(outstanding[0], tr)
      ensures Sizes() == old(Sizes()) && FitsFirst(r, tr, old(outstanding)[0], old(stream.Free(tr)))
      ensures log == old(log) + more && stream.Queued(tr, UpdateBytes(more))
    {
      r, more := SendTracked(tr);
      ghost var id := old(outstanding)[0];
      assert OneTold(id, r == Sent(true));
      assert forall x :: x in requests ==> (Due(x) <==> old(Due(x)) && !(x == id && r == Sent(true)));
      assert Sizes() == old(Sizes());
    }

    method SendTracked(tr: SendEnd) returns (r: SendResult<bool>, ghost more: seq<Update>)
      requires Valid() && outstanding != [] && Due(outstanding[0])
      modifies this`outstanding, this`log, stream, tr, requests.Values`lastSent
      ensures r.Sent? ==> Valid()
      ensures r.Refused? <==> Stuck(tr)
      ensures Stuck(tr) ==> more == []
      ensures OneTold(old(outstanding)[0], r == Sent(true))
      ensures outstanding == if r == Sent(false) then old(outstanding) else old(outstanding)[1..]
      ensures r == Sent(false) ==> Waits(outstanding[0], tr)
      ensures FitsFirst(r, tr, old(outstanding)[0], old(stream.Free(tr)))
      ensures log == old(log) + more && stream.Queued(tr, UpdateBytes(more))
    {
      r, more := SendHead(tr);
      if r.Sent? {
        assert r == Sent(false) ==> log == old(log);
        forall x | x in requests
          ensures Tracked(x)
        {
          assert old(Tracked(x));
          if r.value {
            ToldAppend(old(log), more[0], x, requests[x].initial);
          }
          if r.value && x != old(outstanding)[0] && x in old(outstanding) {
            StillQueued(old(outstanding), x);
          }
        }
      }
    }

    /** The update goes out if the stream is open and there is room for it. */
    ghost predicate FitsFirst(r: SendResult<bool>, tr: SendEnd, id: StreamId, free: int)
      requires id in requests
      reads this, requests.Values, stream, tr
    {
      var n := |UpdateFrame(id, requests[id].value)|;
      && (stream.buf.Some? && !tr.closed && !tr.gone ==> (r == Sent(true) <==> n <= free))
      && stream.Free(tr) == free - (if r == Sent(true) then n else 0)
      && (r == Sent(true) ==> !stream.HasBufferedData())
    }

    method SendHead(tr: SendEnd) returns (r: SendResult<bool>, ghost more: seq<Update>)
      requires Valid() && outstanding != [] && Due(outstanding[0])
      modifies this`outstanding, this`log, stream, tr, requests.Values`lastSent
      ensures r.Refused? <==> Stuck(tr)
      ensures outstanding == if r == Sent(false) then old(outstanding) else old(outstanding)[1..]
      ensures OneTold(old(outstanding)[0], r == Sent(true))
      ensures more == if r == Sent(true) then [Update(old(outstanding)[0], requests[old(outstanding)[0]].value)] else []
      ensures r == Sent(false) ==> Waits(outstanding[0], tr)
      ensures FitsFirst(r, tr, old(outstanding)[0], old(stream.Free(tr)))
      ensures log == old(log) + more && stream.Queued(tr, UpdateBytes(more))
    {
      var id := outstanding[0];
      outstanding := outstanding[1..];
      r, more := SendUpdate(id, tr);
      if r == Sent(false) {
        outstanding := [id] + outstanding;
        assert outstanding == old(outstanding);
      }
      forall x | x in requests && x != id
        ensures requests[x].lastSent == old(requests[x].lastSent)
      {
        assert requests[x] != requests[id];
      }
    }

    method SendUpdate(id: StreamId, tr: SendEnd) returns (r: SendResult<bool>, ghost more: seq<Update>)
      requires id in requests && requests[id].value != requests[id].lastSent
      modifies this`log, stream, tr, {requests[id]}`lastSent
      ensures r.Refused? <==> Stuck(tr)
      ensures more == if r == Sent(true) then [Update(id, requests[id].value)] else []
      ensures log == old(log) + more && stream.Queued(tr, UpdateBytes(more))
      ensures requests[id].lastSent == if r == Sent(true) then requests[id].value else old(requests[id].lastSent)
      ensures r == Sent(false) ==> Waits(id, tr)
      ensures FitsFirst(r, tr, id, old(stream.Free(tr)))
    {
      var u := Update(id, requests[id].value);
      more := [];
      r := stream.SendAtomicWith(tr, UpdateFrame(id, u.value));
      if r == Sent(true) {
        more := [u];
        OneUpdate(u);
        requests[id].PriorityUpdateSent();
        log := log + more;
      } else {
        assert log + [] == log;
      }
    }

    /** One turn of the loop below. */
    method SendNext(tr: SendEnd) returns (r: SendResult<bool>, ghost more: seq<Update>)
      requires Valid() && outstanding != []
      modifies this`outstanding, this`log, stream, tr, requests.Values`lastSent
      ensures r.Sent? ==> Valid()
      ensures r.Refused? <==> Stuck(tr) && old(Due(outstanding[0]))
      ensures Stuck(tr) ==> more == [] && DueIds() == old(DueIds()) && r != Sent(false)
      ensures outstanding == if r == Sent(false) then old(outstanding) else old(outstanding)[1..]
      ensures r == Sent(false) ==> Due(outstanding[0]) && Waits(outstanding[0], tr)
      ensures old(Room(tr)) ==>
                r == Sent(true) && Room(tr) && (stream.HasBufferedData() ==> old(stream.HasBufferedData()))
      ensures log == old(log) + more && stream.Queued(tr, UpdateBytes(more))
    {
      var id := outstanding[0];
      if id !in requests || requests[id].MaybeEncodeFrame(id).None? {
        Skip();
        more := [];
        assert tr.sent + stream.Pending() + [] == tr.sent + stream.Pending();
        r := Sent(true);
        assert DueIds() == old(DueIds()) && Sizes() == old(Sizes());
      } else {
        r, more := SendFirst(tr);
      }
    }

    /** Nothing has been sent, and what is not outstanding any more was not due. */
    ghost predicate Passed(all: seq<StreamId>, due: set<StreamId>)
      reads this, requests.Values
    {
      DueIds() == due && DueIn(all, due) == DueIn(outstanding, due)
    }

    /** An update that is due has been taken from the queue, and is not in it any more unless it was there twice. */
    ghost predicate Lost(id: Option<StreamId>, all: seq<StreamId>)
      reads this, requests.Values
    {
      id.Some? && id.value in DueIds() && IsSuffix([id.value] + outstanding, all)
    }

    method SendOne(tr: SendEnd, ghost all: seq<StreamId>, ghost due: set<StreamId>)
      returns (r: SendResult<bool>, ghost more: seq<Update>, ghost lost: Option<StreamId>)
      requires Valid() && outstanding != [] && IsSuffix(outstanding, all) && (Stuck(tr) ==> Passed(all, due))
      modifies this`outstanding, this`log, stream, tr, requests.Values`lastSent
      ensures r.Sent? ==> Valid() && lost == None && IsSuffix(outstanding, all)
      ensures r == Sent(false) ==> outstanding != [] && Due(outstanding[0]) && Waits(outstanding[0], tr)
      ensures old(Room(tr)) ==>
                r == Sent(true) && Room(tr) && (stream.HasBufferedData() ==> old(stream.HasBufferedData()))
      ensures r != Sent(false) ==> |outstanding| < |old(outstanding)|
      ensures Stuck(tr) ==> more == [] && r != Sent(false) && (r.Sent? ==> Passed(all, due))
      ensures r.Refused? ==> Stuck(tr) && DueIn(all, due) != {} && Lost(lost, all)
      ensures log == old(log) + more && stream.Queued(tr, UpdateBytes(more))
    {
      NextDue(outstanding, all, due);
      r, more := SendNext(tr);
      lost := if r.Refused? then Some(old(outstanding)[0]) else None;
    }

    /** Send all updates that are due, as long as the transport takes them. What remains is in the order in
        which it was queued, and starts with an update that is due. If the transport takes nothing more, the
        first update that is due is lost. */
    method SendPriorityUpdate(tr: SendEnd)
      returns (r: SendResult<()>, ghost more: seq<Update>, ghost lost: Option<StreamId>)
      requires Valid()
      modifies this`outstanding, this`log, stream, tr, requests.Values`lastSent
      ensures r.Sent? ==> Valid() && (outstanding == [] || Due(outstanding[0]))
      ensures r.Sent? && outstanding != [] ==>
                || stream.buf.None? || stream.HasBufferedData()
                || |UpdateFrame(outstanding[0], requests[outstanding[0]].value)| > tr.avail
      ensures old(Room(tr)) ==>
                r.Sent? && outstanding == [] && (stream.HasBufferedData() ==> old(stream.HasBufferedData()))
      ensures r.Refused? <==> Stuck(tr) && DueIn(old(outstanding), old(DueIds())) != {}
      ensures r.Sent? ==> lost == None && IsSuffix(outstanding, old(outstanding))
      ensures r.Refused? ==> more == [] && Lost(lost, old(outstanding))
      ensures log == old(log) + more && stream.Queued(tr, UpdateBytes(more))
    {
      more, lost := [], None;
      ghost var all, due, queued := outstanding, DueIds(), tr.sent + stream.Pending();
      assert queued + [] == queued;
      while outstanding != []
        invariant Valid() && IsSuffix(outstanding, all) && lost == None
        invariant Stuck(tr) ==> more == [] && Passed(all, due)
        invariant old(Room(tr)) ==> Room(tr) && (stream.HasBufferedData() ==> old(stream.HasBufferedData()))
        invariant log == old(log) + more && stream.Queued(tr, UpdateBytes(more))
        decreases |outstanding|
      {
        ghost var m;
        var sent;
        sent, m, lost := SendOne(tr, all, due);
        MoreUpdates(queued, old(log), more, m);
        more := more + m;
        if sent.Refused? {
          return Refused(sent.error), more, lost;
        }
        if !sent.value {
          return Sent(()), more, lost;
        }
      }
      r := Sent(());
    }

    /** Everything that the control stream has to say. */
    method Send(tr: SendEnd) returns (r: SendResult<()>, ghost more: seq<Update>)
      requires Valid()
      modifies this`outstanding, this`log, stream, tr, requests.Values`lastSent
      ensures r.Sent? ==> Valid() && (outstanding == [] || Due(outstanding[0]))
      ensures r.Sent? && outstanding != [] ==>
                || stream.buf.None? || stream.HasBufferedData()
                || |UpdateFrame(outstanding[0], requests[outstanding[0]].value)| > tr.avail
      ensures old(Room(tr)) ==> r.Sent? && outstanding == [] && !stream.HasBufferedData()
      ensures r.Refused? <==>
                Stuck(tr) && (old(stream.HasBufferedData()) || DueIn(old(outstanding), old(DueIds())) != {})
      ensures log == old(log) + more && stream.Queued(tr, UpdateBytes(more))
    {
      r := Flush(tr);
      more := [];
      if r.Sent? {
        ghost var lost;
        r, more, lost := SendPriorityUpdate(tr);
      }
    }

    method Flush(tr: SendEnd) returns (r: SendResult<()>)
      modifies stream, tr
      ensures r.Refused? <==> Stuck(tr) && old(stream.HasBufferedData())
      ensures stream.Queued(tr, []) && tr.sent + stream.Pending() == old(tr.sent + stream.Pending())
      ensures DueIds() == old(DueIds()) && (old(Room(tr)) ==> Room(tr) && r.Sent? && !stream.HasBufferedData())
    {
      ghost var due, sizes := DueIds(), Sizes();
      r := FlushStream(tr);
      assert DueIds() == due && Sizes() == sizes;
    }

    method FlushStream(tr: SendEnd) returns (r: SendResult<()>)
      modifies stream, tr
      ensures r.Refused? <==> Stuck(tr) && old(stream.HasBufferedData())
      ensures stream.Queued(tr, []) && tr.sent + stream.Pending() == old(tr.sent + stream.Pending())
      ensures stream.Free(tr) == old(stream.Free(tr))
      ensures r.Sent? && stream.Free(tr) >= 0 ==> !stream.HasBufferedData()
    {
      var sent := stream.SendBuffer(tr);
      assert old(tr.sent + stream.Pending()) + [] == old(tr.sent + stream.Pending());
      r := if sent.Refused? then Refused(sent.error) else Sent(());
    }

    /** When nothing is outstanding, the last update that was sent for each request is its priority. */
    lemma Drained(id: StreamId)
      requires Valid() && outstanding == [] && id in requests
      ensures Told(log, id, requests[id].initial) == requests[id].value
    {
    }

    /** So with enough room, one call makes every priority known. */
    method Drain(tr: SendEnd)
      requires Valid() && stream.buf.Some? && !tr.closed && !tr.gone
      requires |stream.Pending()| + DueBytes(outstanding, DueIds(), Sizes()) <= tr.avail
      modifies this`outstanding, this`log, stream, tr, requests.Values`lastSent
      ensures Valid() && outstanding == [] && !stream.HasBufferedData()
      ensures old(log) <= log && tr.sent == old(tr.sent + stream.Pending()) + UpdateBytes(log[|old(log)|..])
      ensures forall id :: id in requests ==> requests[id].value == old(requests[id].value)
      ensures forall id :: id in requests ==> Told(log, id, requests[id].initial) == requests[id].value
    {
      ghost var more;
      var r;
      r, more := Send(tr);
      assert log[|old(log)|..] == more;
      assert tr.sent + [] == tr.sent;
      forall id | id in requests
        ensures Told(log, id, requests[id].initial) == requests[id].value
      {
        Drained(id);
      }
    }
  }

  /** A control stream with one request, whose priority has changed. */
  method OneChange(p: priority, q: priority) returns (c: ControlStreamLocal)
    requires p != q
    ensures fresh(c) && fresh(c.stream) && c.Valid() && c.stream.buf == Some([0]) && c.outstanding == [0] && c.Due(0)
    ensures c.requests.Keys == {0} && fresh(c.requests[0])
  {
    c := new ControlStreamLocal();
    c.Create();
    c.AddRequest(0, p);
    assert c.requests[0].value == p;
    var queued := c.QueueUpdatePriority(0, q);
    assert c.outstanding == [] + [0];
  }

  /** An update can be lost: the stream, which has taken what was there before, is gone when the update is due. */
  method UpdateLost() returns (c: ControlStreamLocal)
    ensures c.requests.Keys == {0} && c.Due(0) && c.outstanding == [] && !c.Valid()
  {
    c := OneChange(Priority(3, false), Priority(1, true));
    var tr := new SendEnd();
    tr.Allow(1);
    var sent := c.stream.SendBuffer(tr);
    tr.Remove();
    assert c.Valid() && !c.stream.HasBufferedData() && 0 in DueIn(c.outstanding, c.DueIds());
    ghost var more, lost;
    var r;
    r, more, lost := c.SendPriorityUpdate(tr);
    LastTaken(lost.value, c.outstanding, 0);
    assert !c.Tracked(0);
  }

  lemma LastTaken(id: StreamId, s: seq<StreamId>, x: StreamId)
    requires IsSuffix([id] + s, [x])
    ensures id == x && s == []
  {
    assert [x][1..] == [];
    assert ([id] + s)[0] == id;
  }

  lemma {:induction false} UpdateBytesConcat(a: seq<Update>, b: seq<Update>)
    ensures UpdateBytes(a + b) == UpdateBytes(a) + UpdateBytes(b)
    decreases |b|
  {
    if b == [] {
      assert a + b == a;
      assert UpdateBytes(a) + [] == UpdateBytes(a);
    } else {
      var front, last := b[..|b| - 1], b[|b| - 1];
      assert b == front + [last] && a + b == (a + front) + [last];
      UpdateBytesConcat(a, front);
      LogAppend(a + front, last);
      LogAppend(front, last);
      ConcatAssoc(UpdateBytes(a), UpdateBytes(front), UpdateFrame(last.id, last.value));
    }
  }

  predicate IsSuffix<T(==)>(s: seq<T>, t: seq<T>) {
    s == t || (t != [] && IsSuffix(s, t[1..]))
  }

  lemma {:induction false} SuffixTail<T>(s: seq<T>, t: seq<T>)
    requires IsSuffix(s, t) && s != []
    ensures IsSuffix(s[1..], t)
    decreases |t|
  {
    if s == t {
      assert IsSuffix(s[1..], t[1..]);
    } else {
      SuffixTail(s, t[1..]);
    }
  }

  function DueIn(s: seq<StreamId>, due: set<StreamId>): set<StreamId> {
    set id | id in s && id in due
  }

  /** The space that the updates take that are due; a request that is queued twice needs one. */
  ghost function DueBytes(s: seq<StreamId>, due: set<StreamId>, size: map<StreamId, nat>): nat
    requires due <= size.Keys
  {
    if s == [] then 0
    else if s[0] in due then size[s[0]] + DueBytes(s[1..], due - {s[0]}, size)
    else DueBytes(s[1..], due, size)
  }

  /** The first of the outstanding updates is taken. */
  lemma NextDue(s: seq<StreamId>, s0: seq<StreamId>, due: set<StreamId>)
    requires s != [] && IsSuffix(s, s0)
    ensures IsSuffix(s[1..], s0) && [s[0]] + s[1..] == s
    ensures s[0] in due ==> s[0] in DueIn(s, due)
    ensures s[0] !in due ==> DueIn(s[1..], due) == DueIn(s, due)
  {
    SuffixTail(s, s0);
  }

  lemma MoreUpdates(sent: seq<byte>, log: seq<Update>, a: seq<Update>, b: seq<Update>)
    ensures sent + UpdateBytes(a) + UpdateBytes(b) == sent + UpdateBytes(a + b)
    ensures log + a + b == log + (a + b)
  {
    UpdateBytesConcat(a, b);
    ConcatAssoc(sent, UpdateBytes(a), UpdateBytes(b));
    ConcatAssoc(log, a, b);
  }

  lemma StillQueued(s: seq<StreamId>, x: StreamId)
    requires s != [] && x in s && x != s[0]
    ensures x in s[1..]
  {
  }

  lemma OneUpdate(u: Update)
    ensures UpdateBytes([u]) == UpdateFrame(u.id, u.value)
  {
  }

  lemma {:induction false} NeverTold(log: seq<Update>, id: StreamId, initial: priority)
    requires forall u :: u in log ==> u.id != id
    ensures Told(log, id, initial) == initial
    decreases |log|
  {
    if log != [] {
      assert log[|log| - 1] in log;
      NeverTold(log[..|log| - 1], id, initial);
    }
  }
}
