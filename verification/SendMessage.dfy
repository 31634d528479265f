/** The sending side of an HTTP message: headers and data become frames, which go to the transport as far as
    it takes them. The log of frames is a ghost; every byte sent or buffered belongs to it.
 */
module SendMessages {
  import opened Bits
  import opened Varint
  import opened Transport
  import opened Headers
  import opened BufferedSendStreams
  import Frames

  // ----- Frames -----

  type Payload = s: seq<byte> | |s| <= MAX_VARINT

  datatype SentFrame = SentHeaders(headers: seq<Header>, block: Payload) | SentData(payload: Payload)

  function DataHeader(len: varint): seq<byte> {
    EncodeVarint(Frames.DATA) + EncodeVarint(len)
  }

  function HeadersHeader(len: varint): seq<byte> {
    EncodeVarint(Frames.HEADERS) + EncodeVarint(len)
  }

  function FrameBytes(f: SentFrame): seq<byte> {
    match f
    case SentHeaders(_, block) => HeadersHeader(|block|) + block
    case SentData(payload) => DataHeader(|payload|) + payload
  }

  ghost function LogBytes(log: seq<SentFrame>): seq<byte>
    decreases |log|
  {
    if log == [] then [] else LogBytes(log[..|log| - 1]) + FrameBytes(log[|log| - 1])
  }

  /** The data that the application handed over. */
  ghost function LogBody(log: seq<SentFrame>): seq<byte>
    decreases |log|
  {
    if log == [] then []
    else
      var f := log[|log| - 1];
      LogBody(log[..|log| - 1]) + (if f.SentData? then f.payload else [])
  }

  lemma LogAppend(log: seq<SentFrame>, f: SentFrame)
    ensures LogBytes(log + [f]) == LogBytes(log) + FrameBytes(f)
    ensures LogBody(log + [f]) == LogBody(log) + (if f.SentData? then f.payload else [])
  {
  }

  // ----- The size of a DATA frame -----

  const MIN_DATA_FRAME_SIZE := 3
  const MAX_DATA_HEADER_SIZE_2 := 0x3f
  const MAX_DATA_HEADER_SIZE_2_LIMIT := MAX_DATA_HEADER_SIZE_2 + 3
  const MAX_DATA_HEADER_SIZE_3 := 0x3fff
  const MAX_DATA_HEADER_SIZE_3_LIMIT := MAX_DATA_HEADER_SIZE_3 + 5
  const MAX_DATA_HEADER_SIZE_5 := 0x3fff_ffff
  const MAX_DATA_HEADER_SIZE_5_LIMIT := MAX_DATA_HEADER_SIZE_5 + 9

  /** The space that a DATA frame takes. */
  function DataFrameLen(n: varint): nat {
    VarintLen(Frames.DATA) + VarintLen(n) + n
  }

  /** How much of `len` bytes to put in a DATA frame. */
  function ToSend(len: nat, available: nat): nat
    requires available >= MIN_DATA_FRAME_SIZE
  {
    if available <= MAX_DATA_HEADER_SIZE_2_LIMIT then Min(Min(len, available - 2), MAX_DATA_HEADER_SIZE_2)
    else if available <= MAX_DATA_HEADER_SIZE_3_LIMIT then Min(Min(len, available - 3), MAX_DATA_HEADER_SIZE_3)
    else if available <= MAX_DATA_HEADER_SIZE_5 then Min(Min(len, available - 5), MAX_DATA_HEADER_SIZE_5_LIMIT)
    else Min(len, available - 9)
  }

  /** The frame fits, and carries something if there is something to carry. */
  lemma ToSendFits(len: varint, available: nat)
    requires available >= 3
    ensures ToSend(len, available) <= len && DataFrameLen(ToSend(len, available)) <= available
    ensures len > 0 ==> ToSend(len, available) > 0
  {
  }

  /** The sizes for which a larger payload would fit: the 9-byte frame header is assumed too early. */
  predicate Cautious(available: nat) {
    0x4000_0000 <= available <= 0x4000_0007
  }

  /** The payload is the largest that fits, except there, where it is at most 4 bytes short. */
  lemma ToSendLargest(len: varint, available: nat, n: varint)
    requires available >= 3 && n <= len && DataFrameLen(n) <= available
    ensures n <= ToSend(len, available) + (if Cautious(available) then 4 else 0)
  {
  }

  /** And there it is short whenever there is more to send. */
  lemma ToSendShort(len: varint, available: nat)
    requires Cautious(available) && ToSend(len, available) < len
    ensures DataFrameLen(ToSend(len, available) + 1) <= available
  {
  }

  // ----- The message -----

  datatype MessageState = WaitingForHeaders | WaitingForData | TrailersSet | Done

  datatype SendMessageError =
    | InvalidInput
    | InvalidHeader
    | FlowControlLimit
    | TransportRefused(error: SendError)

  datatype Res<+T> = Ok(value: T) | Err(error: SendMessageError)

  predicate NoPseudo(headers: seq<Header>) {
    forall i :: 0 <= i < |headers| ==> !IsPseudo(headers[i].name)
  }

  /** Header sections until one that is not informational, then data, then at most one trailer section. */
  ghost predicate LogState(mt: MessageType, log: seq<SentFrame>, s: MessageState)
    decreases |log|
  {
    if log == [] then s == WaitingForHeaders
    else
      var before, f := log[..|log| - 1], log[|log| - 1];
      match s
      case WaitingForHeaders =>
        && LogState(mt, before, WaitingForHeaders) && f.SentHeaders?
        && mt == Response && WellFormed(f.headers, mt) && IsInterim(f.headers) == Some(true)
      case WaitingForData =>
        if f.SentData? then LogState(mt, before, WaitingForData)
        else
          && LogState(mt, before, WaitingForHeaders)
          && WellFormed(f.headers, mt) && (mt == Request || IsInterim(f.headers) == Some(false))
      case TrailersSet => LogState(mt, before, WaitingForData) && f.SentHeaders? && NoPseudo(f.headers)
      case Done => false
  }

  /** The state that a header section leads to, if it may come next: none may after the trailers. */
  function NextState(mt: MessageType, s: MessageState, headers: seq<Header>): Option<MessageState> {
    match s
    case WaitingForHeaders =>
      if mt == Request then Some(WaitingForData)
      else if IsInterim(headers).None? then None
      else Some(if IsInterim(headers).value then WaitingForHeaders else WaitingForData)
    case WaitingForData => if NoPseudo(headers) then Some(TrailersSet) else None
    case _ => None
  }

  lemma LogStateAppend(mt: MessageType, log: seq<SentFrame>, f: SentFrame)
    requires f.SentData? && LogState(mt, log, WaitingForData)
    ensures LogState(mt, log + [f], WaitingForData)
  {
  }

  lemma LogStateHeaders(mt: MessageType, log: seq<SentFrame>, f: SentFrame, s: MessageState)
    requires f.SentHeaders? && WellFormed(f.headers, mt) && LogState(mt, log, WaitingForHeaders)
    requires s == if mt == Request || IsInterim(f.headers) == Some(false) then WaitingForData else WaitingForHeaders
    requires mt == Response ==> IsInterim(f.headers).Some?
    ensures LogState(mt, log + [f], s)
  {
  }

  lemma LogStateTrailers(mt: MessageType, log: seq<SentFrame>, f: SentFrame)
    requires f.SentHeaders? && NoPseudo(f.headers) && LogState(mt, log, WaitingForData)
    ensures LogState(mt, log + [f], TrailersSet)
  {
  }

  /** A message as the connection sees it. */
  datatype SendView = SendView(state: MessageState, sent: seq<byte>, pending: seq<byte>, fins: nat)
  {
    predicate HasDataToSend() {
      pending != []
    }

    predicate IsDone() {
      pending == [] && state == Done
    }
  }

  /** The transport takes up to n bytes. */
  function Flushed(v: SendView, n: nat): SendView {
    var k := Min(|v.pending|, n);
    v.(sent := v.sent + v.pending[..k], pending := v.pending[k..])
  }

  /** And the end of the stream follows the last one. */
  function Served(v: SendView, n: nat): SendView {
    WithEnd(Flushed(v, n))
  }

  function WithEnd(v: SendView): SendView {
    if v.IsDone() then v.(fins := v.fins + 1) else v
  }

  /** What a stream that has this much room, or is gone, does to a message. */
  function ServedBy(v: SendView, room: Option<nat>): SendView {
    if room.None? then v else Served(v, room.value)
  }

  /** Sending fails if the stream is gone and there are bytes, or the end, to send. */
  predicate Fails(v: SendView, room: Option<nat>) {
    room.None? && (v.HasDataToSend() || v.state == Done)
  }

  /** A header section goes behind what is there, if it may come next. */
  function HeadersQueued(mt: MessageType, v: SendView, headers: seq<Header>, frame: seq<byte>): Option<SendView> {
    var next := NextState(mt, v.state, headers);
    if next.None? then None else Some(v.(state := next.value, pending := v.pending + frame))
  }

  /** The application hands over data while the transport has this much room: what is there goes first,
      and if that is all and leaves room for a frame, as much of the data as fits follows. */
  function DataWritten(v: SendView, room: Option<nat>, buf: Payload): SendView {
    if v.state != WaitingForData || room.None? then v
    else
      var flushed, left := Flushed(v, room.value), FrameRoom(v, room.value);
      if left < MIN_DATA_FRAME_SIZE then flushed
      else flushed.(sent := flushed.sent + FrameBytes(SentData(buf[..ToSend(|buf|, left)])))
  }

  /** And what the application is told: an empty frame is an error, after its header has been passed on. */
  function DataTaken(v: SendView, room: Option<nat>, buf: Payload): (r: Res<nat>)
    ensures r.Ok? ==> r.value <= |buf|
  {
    if v.state != WaitingForData then Err(SendMessageError.InvalidInput)
    else if room.None? then Err(TransportRefused(InvalidStreamId))
    else if FrameRoom(v, room.value) < MIN_DATA_FRAME_SIZE then Ok(0)
    else if buf == [] then Err(TransportRefused(SendError.InvalidInput))
    else Ok(ToSend(|buf|, FrameRoom(v, room.value)))
  }

  /** The room that is left behind what is there. */
  function FrameRoom(v: SendView, avail: nat): nat {
    if |v.pending| <= avail then avail - |v.pending| else 0
  }

  /** Data goes behind what is there, or is not accepted. */
  predicate Accepted(v: SendView, v': SendView) {
    && v'.state == v.state && v'.fins == v.fins && v.sent + v.pending <= v'.sent + v'.pending
    && (v.pending == [] ==> v'.pending == []) && (v.state != WaitingForData ==> v' == v)
  }

  /** The application closes the message. If everything has been passed on, the end follows, unless the stream
      is gone. */
  function Ended(v: SendView, gone: bool): SendView {
    if v.state == WaitingForHeaders || v.state == Done then v
    else v.(state := Done, fins := if v.pending == [] && !gone then v.fins + 1 else v.fins)
  }

  lemma DataAccepted(v: SendView, avail: nat, buf: Payload)
    ensures Accepted(v, DataWritten(v, Some(avail), buf))
  {
    if v.state == WaitingForData {
      if FrameRoom(v, avail) < MIN_DATA_FRAME_SIZE {
        FlushedKeeps(v, avail);
      } else {
        AllFlushed(v, avail);
        GoesBehind(v.sent + v.pending, FrameBytes(SentData(buf[..ToSend(|buf|, FrameRoom(v, avail))])));
      }
    }
  }

  lemma GoesBehind(s: seq<byte>, t: seq<byte>)
    ensures s <= (s + t) + []
  {
  }

  lemma FlushedKeeps(v: SendView, n: nat)
    ensures Flushed(v, n).sent + Flushed(v, n).pending == v.sent + v.pending
  {
    var k := Min(|v.pending|, n);
    ConcatAssoc(v.sent, v.pending[..k], v.pending[k..]);
  }

  lemma AllFlushed(v: SendView, n: nat)
    requires |v.pending| <= n
    ensures Flushed(v, n) == v.(sent := v.sent + v.pending, pending := [])
  {
    assert v.pending[..|v.pending|] == v.pending && v.pending[|v.pending|..] == [];
  }

  lemma RoomFlushed(v: SendView, n: nat)
    ensures FrameRoom(v, n) == if Flushed(v, n).pending == [] then n - |v.pending| else 0
    ensures Flushed(v, n).pending == [] ==> |v.pending| <= n
  {
  }

  lemma WrittenGrows(v: SendView, room: Option<nat>, buf: Payload)
    ensures v.sent <= DataWritten(v, room, buf).sent
  {
  }

  /** Writing a DATA frame is adding it to the log. */
  lemma DataLogged(v: SendView, avail: nat, buf: Payload, log: seq<SentFrame>, payload: Payload)
    requires v.state == WaitingForData && FrameRoom(v, avail) >= MIN_DATA_FRAME_SIZE
    requires v.sent + v.pending == LogBytes(log) && payload == buf[..ToSend(|buf|, FrameRoom(v, avail))]
    ensures DataWritten(v, Some(avail), buf) == v.(sent := LogBytes(log + [SentData(payload)]), pending := [])
  {
    AllFlushed(v, avail);
    LogAppend(log, SentData(payload));
  }

  /** Neither loses, adds or reorders a byte, and an end follows the last one: it is passed on in the step in
      which a finished message becomes empty, unless the stream is gone. */
  lemma ViewsKeep(v: SendView, n: nat, gone: bool)
    ensures Served(v, n).sent + Served(v, n).pending == v.sent + v.pending
    ensures Ended(v, gone).sent == v.sent && Ended(v, gone).pending == v.pending
    ensures !v.IsDone() ==> Ended(v, gone).fins == v.fins + (if Ended(v, gone).IsDone() && !gone then 1 else 0)
    ensures Served(v, n).fins == v.fins + (if Served(v, n).IsDone() then 1 else 0)
  {
    FlushedKeeps(v, n);
    WithEndKeeps(Flushed(v, n));
  }

  lemma WithEndKeeps(v: SendView)
    ensures WithEnd(v).sent == v.sent && WithEnd(v).pending == v.pending
    ensures WithEnd(v).fins == v.fins + (if WithEnd(v).IsDone() then 1 else 0)
  {
  }

  class SendMessage {
    const mt: MessageType
    const stream: BufferedStream
    var state: MessageState
    // What the application has been told.
    var writable: nat
    var closings: nat
    ghost var log: seq<SentFrame>

    ghost predicate Valid(tr: SendEnd)
      reads this, stream, tr
    {
      && stream.buf.Some?
      && tr.sent + stream.Pending() == LogBytes(log)
      && (state != Done ==> LogState(mt, log, state))
      && (state == Done ==> LogState(mt, log, WaitingForData) || LogState(mt, log, TrailersSet))
      && tr.closed == (tr.fins > 0)
      && (tr.closed ==> state == Done && !HasDataToSend())
      && closings <= (if state == Done then 1 else 0) && (state == Done && closings == 0 ==> tr.gone)
    }

    constructor (messageType: MessageType, tr: SendEnd)
      requires tr.sent == [] && !tr.closed && !tr.gone && tr.fins == 0
      ensures Valid(tr) && fresh(stream) && log == [] && mt == messageType && state == WaitingForHeaders
      ensures writable == 0 && closings == 0
    {
      mt := messageType;
      stream := new BufferedStream();
      state, writable, closings, log := WaitingForHeaders, 0, 0, [];
    }

    predicate HasDataToSend()
      reads this, stream
    {
      stream.HasBufferedData()
    }

    predicate IsDone()
      reads this, stream
    {
      !HasDataToSend() && state == Done
    }

    ghost function View(tr: SendEnd): SendView
      reads this, stream, tr
    {
      SendView(state, tr.sent, stream.Pending(), tr.fins)
    }

    /** The next header section: which one it is depends on what came before. */
    method NewHeaders(headers: seq<Header>, ghost block: Payload) returns (r: Res<()>)
      requires state == WaitingForHeaders ==> WellFormed(headers, mt)
      requires state != Done ==> LogState(mt, log, state)
      modifies this`state, this`log
      ensures r.Ok? ==> LogState(mt, log, state) && state != Done && old(state) != Done
      ensures log == if r.Ok? then old(log) + [SentHeaders(headers, block)] else old(log)
      ensures r.Err? ==> state == old(state)
      ensures r.Ok? <==> NextState(mt, old(state), headers).Some?
      ensures r.Ok? ==> state == NextState(mt, old(state), headers).value
    {
      ghost var f := SentHeaders(headers, block);
      match state {
        case WaitingForHeaders =>
          if mt == Request {
            state := WaitingForData;
          } else {
            var interim := IsInterim(headers);
            if interim.None? {
              return Err(InvalidHeader);
            }
            if !interim.value {
              state := WaitingForData;
            }
          }
          LogStateHeaders(mt, log, f, state);
        case WaitingForData =>
          var valid := TrailersValid(headers);
          if !valid {
            return Err(InvalidHeader);
          }
          state := TrailersSet;
          LogStateTrailers(mt, log, f);
        case _ => return Err(SendMessageError.InvalidInput);
      }
      log := log + [f];
      r := Ok(());
    }

    /** Queue a header section; `block` is its QPACK encoding. */
    method SendHeaders(headers: seq<Header>, block: Payload, ghost tr: SendEnd) returns (r: Res<()>)
      requires Valid(tr) && (state == WaitingForHeaders ==> WellFormed(headers, mt))
      modifies this`state, this`log, stream
      ensures Valid(tr)
      ensures log == if r.Ok? then old(log) + [SentHeaders(headers, block)] else old(log)
      ensures match HeadersQueued(mt, old(View(tr)), headers, FrameBytes(SentHeaders(headers, block)))
              case Some(v) => r.Ok? && View(tr) == v
              case None => r.Err? && View(tr) == old(View(tr))
    {
      r := NewHeaders(headers, block);
      if r.Ok? {
        QueueFrame(SentHeaders(headers, block), old(log), tr);
      }
    }

    /** The bytes of the last frame go to the end of the buffer. */
    method QueueFrame(f: SentFrame, ghost before: seq<SentFrame>, ghost tr: SendEnd)
      requires stream.buf.Some? && tr.sent + stream.Pending() == LogBytes(before)
      modifies stream
      ensures stream.buf == Some(old(stream.Pending()) + FrameBytes(f))
      ensures tr.sent + stream.Pending() == LogBytes(before + [f])
    {
      LogAppend(before, f);
      ConcatAssoc(tr.sent, stream.Pending(), FrameBytes(f));
      stream.EncodeWith(FrameBytes(f));
    }

    /** Flush what is buffered. */
    method Flush(tr: SendEnd) returns (r: Res<nat>)
      requires Valid(tr)
      modifies stream, tr
      ensures tr.Extended()
      ensures Valid(tr) && tr.closed == old(tr.closed)
      ensures r.Err? <==> tr.gone && old(HasDataToSend())
      ensures r.Err? ==> r.error == TransportRefused(InvalidStreamId)
      ensures tr.gone ==> View(tr) == old(View(tr)) && tr.avail == old(tr.avail)
      ensures !tr.gone ==>
                && View(tr) == Flushed(old(View(tr)), old(tr.avail)) && tr.avail == old(tr.avail) - r.value
                && r.value == Min(|old(stream.Pending())|, old(tr.avail))
    {
      var sent := stream.SendBuffer(tr);
      assert LogBytes(log) + [] == LogBytes(log);
      r := if sent.Refused? then Err(TransportRefused(sent.error)) else Ok(sent.value);
    }

    /** Put data in a DATA frame, as much as the transport has room for. */
    method SendData(tr: SendEnd, buf: Payload) returns (r: Res<nat>)
      requires Valid(tr)
      modifies this`log, stream, tr
      ensures tr.Extended()
      ensures Valid(tr) && tr.closed == old(tr.closed)
      ensures View(tr) == DataWritten(old(View(tr)), old(tr.Space()), buf)
      ensures r == DataTaken(old(View(tr)), old(tr.Space()), buf)
      ensures r.Ok? ==> LogBody(log) == LogBody(old(log)) + buf[..r.value]
      ensures log == if r == Err(TransportRefused(SendError.InvalidInput)) then old(log) + [SentData([])]
                     else if r.Ok? && r.value > 0 then old(log) + [SentData(buf[..r.value])]
                     else old(log)
      ensures r == Ok(0) ==> HasDataToSend() || tr.avail < 3
      ensures r.Ok? && r.value > 0 ==> FrameRoom(old(View(tr)), old(tr.avail)) == DataFrameLen(r.value) + tr.avail
    {
      if state != WaitingForData {
        return Err(SendMessageError.InvalidInput);
      }
      WrittenGrows(View(tr), tr.Space(), buf);
      r := WriteData(tr, buf);
      if r == Ok(0) {
        assert LogBody(log) + [] == LogBody(log);
      } else if r.Ok? {
        LogAppend(old(log), SentData(buf[..r.value]));
      }
    }

    method WriteData(tr: SendEnd, buf: Payload) returns (r: Res<nat>)
      requires Valid(tr) && state == WaitingForData
      modifies this`log, stream, tr
      ensures Valid(tr) && tr.closed == old(tr.closed) && tr.gone == old(tr.gone)
      ensures View(tr) == DataWritten(old(View(tr)), old(tr.Space()), buf)
      ensures r == DataTaken(old(View(tr)), old(tr.Space()), buf)
      ensures log == if r == Ok(0) || tr.gone then old(log)
                     else old(log) + [SentData(if r.Ok? then buf[..r.value] else [])]
      ensures r == Ok(0) ==> HasDataToSend() || tr.avail < 3
      ensures r.Ok? && r.value > 0 ==> FrameRoom(old(View(tr)), old(tr.avail)) == DataFrameLen(r.value) + tr.avail
    {
      ghost var v := View(tr);
      r := Flush(tr);
      if r.Err? {
        return;
      }
      RoomFlushed(v, old(tr.avail));
      if HasDataToSend() {
        return Ok(0);
      }
      if tr.gone {
        return Err(TransportRefused(InvalidStreamId));
      }
      if tr.avail < MIN_DATA_FRAME_SIZE {
        return Ok(0);
      }
      r := SendSome(tr, buf, v, old(tr.avail));
    }

    /** The same when everything before it, from `v` with room for `avail` bytes, has been passed on. */
    method SendSome(tr: SendEnd, buf: Payload, ghost v: SendView, ghost avail: nat) returns (r: Res<nat>)
      requires Valid(tr) && state == WaitingForData && !HasDataToSend() && tr.avail >= MIN_DATA_FRAME_SIZE
      requires v.state == state && v.fins == tr.fins && v.sent + v.pending == LogBytes(log)
      requires tr.avail == FrameRoom(v, avail) && !tr.gone
      modifies this`log, stream, tr
      ensures Valid(tr) && tr.closed == old(tr.closed) && !tr.gone
      ensures View(tr) == DataWritten(v, Some(avail), buf) && r == DataTaken(v, Some(avail), buf)
      ensures log == old(log) + [SentData(if r.Ok? then buf[..r.value] else [])]
      ensures r.Ok? ==> r.value > 0 && old(tr.avail) == DataFrameLen(r.value) + tr.avail
    {
      var toSend := ToSend(|buf|, tr.avail);
      ToSendFits(|buf|, tr.avail);
      DataLogged(v, avail, buf, log, buf[..toSend]);
      r := SendFrame(tr, buf[..toSend]);
    }

    /** Send a DATA frame that fits. A frame without payload leaves its header behind. */
    method SendFrame(tr: SendEnd, payload: Payload) returns (r: Res<nat>)
      requires Valid(tr) && state == WaitingForData && !HasDataToSend() && DataFrameLen(|payload|) <= tr.avail
      requires !tr.gone
      modifies this`log, stream, tr
      ensures Valid(tr) && log == old(log) + [SentData(payload)] && !HasDataToSend()
      ensures tr.sent == LogBytes(log)
      ensures r == if payload == [] then Err(TransportRefused(SendError.InvalidInput)) else Ok(|payload|)
      ensures tr.closed == old(tr.closed) && tr.fins == old(tr.fins) && !tr.gone
      ensures tr.avail == old(tr.avail) - DataFrameLen(|payload|)
    {
      ghost var f := SentData(payload);
      assert tr.sent + [] == tr.sent;
      LogAppend(log, f);
      LogStateAppend(mt, log, f);
      r := SendParts(tr, payload);
      log := log + [f];
      assert tr.sent + [] == tr.sent;
    }

    /** Header and payload, each at once. */
    method SendParts(tr: SendEnd, payload: Payload) returns (r: Res<nat>)
      requires stream.buf == Some([]) && DataFrameLen(|payload|) <= tr.avail && !tr.closed && !tr.gone
      modifies stream, tr
      ensures stream.buf == Some([]) && tr.sent == old(tr.sent) + FrameBytes(SentData(payload))
      ensures r == if payload == [] then Err(TransportRefused(SendError.InvalidInput)) else Ok(|payload|)
      ensures !tr.closed && !tr.gone && tr.fins == old(tr.fins)
      ensures tr.avail == old(tr.avail) - DataFrameLen(|payload|)
    {
      ghost var was := tr.sent;
      var header := DataHeader(|payload|);
      var sentHeader := stream.SendAtomicWith(tr, header);
      assert sentHeader == SendResult.Sent(true);
      assert tr.sent + [] == tr.sent && was + [] == was;
      var sent := stream.SendAtomic(tr, payload);
      assert tr.sent + [] == tr.sent;
      ConcatAssoc(was, header, payload);
      r := if sent.Refused? then Err(TransportRefused(sent.error)) else Ok(|payload|);
    }

    /** Pass on what is buffered; when that was all of a finished message, end the stream. */
    method Send(tr: SendEnd) returns (r: Res<()>)
      requires Valid(tr)
      modifies this`writable, stream, tr
      ensures tr.Extended()
      ensures Valid(tr)
      ensures r == if Fails(old(View(tr)), tr.Space()) then Err(TransportRefused(InvalidStreamId)) else Ok(())
      ensures View(tr) == ServedBy(old(View(tr)), old(tr.Space()))
      ensures writable == old(writable) + (if !HasDataToSend() && state != Done then 1 else 0)
      ensures HasDataToSend() && !tr.gone ==> tr.avail == 0
    {
      var sent := Flush(tr);
      if sent.Err? {
        return Err(sent.error);
      }
      r := EndOrAsk(tr);
    }

    /** When everything has been passed on: end the stream, or ask for more. */
    method EndOrAsk(tr: SendEnd) returns (r: Res<()>)
      requires Valid(tr) && (tr.gone ==> !HasDataToSend())
      modifies this`writable, tr
      ensures tr.Extended() && tr.sent == old(tr.sent) && tr.avail == old(tr.avail)
      ensures Valid(tr)
      ensures r == if tr.gone && state == Done then Err(TransportRefused(InvalidStreamId)) else Ok(())
      ensures View(tr) == if tr.gone then old(View(tr)) else WithEnd(old(View(tr)))
      ensures writable == old(writable) + (if !HasDataToSend() && state != Done then 1 else 0)
    {
      if !HasDataToSend() {
        if state == Done {
          var end := tr.Close();
          if end.Refused? {
            return Err(TransportRefused(end.error));
          }
        } else {
          writable := writable + 1;
        }
      }
      r := Ok(());
    }

    /** Make sure that everything queued so far will be delivered, or fail. */
    method Commit(tr: SendEnd) returns (r: Res<()>)
      requires Valid(tr)
      modifies stream, tr
      ensures tr.Extended()
      ensures Valid(tr) && tr.closed == old(tr.closed) && tr.fins == old(tr.fins)
      ensures r.Ok? <==> tr.sent == LogBytes(log) && !tr.gone
      ensures r.Err? ==> r.error == if tr.gone then TransportRefused(InvalidStreamId) else FlowControlLimit
      ensures HasDataToSend() && !tr.gone ==> tr.avail == 0
    {
      var sent := Flush(tr);
      if sent.Err? {
        return Err(sent.error);
      }
      if HasDataToSend() {
        return Err(FlowControlLimit);
      }
      assert tr.sent + [] == tr.sent;
      r := if tr.gone then Err(TransportRefused(InvalidStreamId)) else Ok(());
    }

    /** No more data or headers: the stream ends as soon as everything has been passed on. */
    method Close(tr: SendEnd) returns (r: Res<()>)
      requires Valid(tr)
      modifies this`state, this`closings, tr
      ensures tr.Extended()
      ensures Valid(tr)
      ensures r == if old(state) == WaitingForHeaders || old(state) == Done then Err(SendMessageError.InvalidInput)
                   else if tr.gone && !HasDataToSend() then Err(TransportRefused(InvalidStreamId))
                   else Ok(())
      ensures View(tr) == Ended(old(View(tr)), tr.gone) && tr.avail == old(tr.avail)
      ensures closings == old(closings) + (if r.Ok? then 1 else 0)
    {
      if state == WaitingForHeaders || state == Done {
        return Err(SendMessageError.InvalidInput);
      }
      state := Done;
      if !HasDataToSend() {
        var end := tr.Close();
        if end.Refused? {
          return Err(TransportRefused(end.error));
        }
      }
      closings := closings + 1;
      r := Ok(());
    }

    /** Queue all of the data in one frame. The state of the message is not looked at: only while data is
        expected does the frame belong there, and after the end of the stream it cannot be passed on. */
    method SendDataAtomic(tr: SendEnd, buf: Payload) returns (r: Res<()>)
      requires Valid(tr)
      modifies this`log, stream, tr
      ensures tr.Extended()
      ensures log == old(log) + [SentData(buf)] && tr.sent + stream.Pending() == LogBytes(log)
      ensures r.Ok? <==> !tr.closed && !tr.gone
      ensures r.Ok? && HasDataToSend() ==> tr.avail == 0
      ensures state == WaitingForData ==> Valid(tr)
      ensures tr.closed == old(tr.closed) && tr.fins == old(tr.fins)
    {
      ghost var f := SentData(buf);
      if state == WaitingForData {
        LogStateAppend(mt, log, f);
      }
      BufferData(buf, tr);
      log := log + [f];
      r := PassOn(tr, LogBytes(log));
    }

    method PassOn(tr: SendEnd, ghost all: seq<byte>) returns (r: Res<()>)
      requires stream.buf.Some? && HasDataToSend() && tr.sent + stream.Pending() == all
      modifies stream, tr
      ensures tr.Extended() && tr.closed == old(tr.closed) && tr.fins == old(tr.fins)
      ensures stream.buf.Some? && tr.sent + stream.Pending() == all
      ensures r.Ok? <==> !tr.closed && !tr.gone
      ensures r.Ok? && HasDataToSend() ==> tr.avail == 0
    {
      var sent := stream.SendBuffer(tr);
      assert all + [] == all;
      r := if sent.Refused? then Err(TransportRefused(sent.error)) else Ok(());
    }

    /** Header and payload go to the end of the buffer. */
    method BufferData(buf: Payload, ghost tr: SendEnd)
      requires stream.buf.Some? && tr.sent + stream.Pending() == LogBytes(log)
      modifies stream
      ensures stream.buf.Some? && HasDataToSend() && tr.sent + stream.Pending() == LogBytes(log + [SentData(buf)])
    {
      ghost var f := SentData(buf);
      LogAppend(log, f);
      ConcatAssoc(tr.sent, stream.Pending(), FrameBytes(f));
      ConcatAssoc(stream.Pending(), DataHeader(|buf|), buf);
      stream.EncodeWith(DataHeader(|buf|));
      stream.Buffer(buf);
    }
  }
}
