/** HTTP/3 frames (section 7.1 of RFC 9114): what a reader makes of the bytes it has received so far.

    `FrameStatus` looks at the bytes of one frame, and `ReadRun` extends it to a byte stream.
 */
module Frames {
  import opened Bits
  import opened Varint
  import S = Settings

  const DATA := 0x0
  const HEADERS := 0x1
  const CANCEL_PUSH := 0x3
  const SETTINGS := 0x4
  const PUSH_PROMISE := 0x5
  const GOAWAY := 0x7
  const MAX_PUSH_ID := 0xd
  const PRIORITY_UPDATE_REQUEST := 0xf0700
  const PRIORITY_UPDATE_PUSH := 0xf0701

  const MAX_HEADER_BYTES := 0x6_0000
  const MAX_SINGLE_VARINT_FRAME_BYTES := 8
  const MAX_BUFFERED_FRAME_BYTES := 0x1000
  const MAX_READ_SIZE := 2048

  datatype FrameError =
    | HttpFrame
    | HttpFrameUnexpected
    | HttpSettings
    | HttpExcessiveLoad
    | HttpGeneralProtocolStream
    | HttpId
    | InvalidHeader
    | QpackFailed

  datatype Res<+T> = Ok(value: T) | Err(error: FrameError)

  /** A frame as a message stream sees it. The ones that do not belong there are all the same. */
  datatype Frame = Data(len: nat) | HeadersFrame(block: seq<byte>) | PushPromise | Foreign

  predicate ReservedType(t: nat) {
    t in {0x2, 0x6, 0x8, 0x9}
  }

  predicate KnownType(t: nat) {
    t in {DATA, HEADERS, SETTINGS, GOAWAY, PRIORITY_UPDATE_REQUEST, CANCEL_PUSH, PUSH_PROMISE, MAX_PUSH_ID,
          PRIORITY_UPDATE_PUSH}
  }

  /** The longest payload that is buffered. */
  function MaxFrameData(t: nat): nat
    requires KnownType(t) && t != DATA
  {
    if t in {HEADERS, PUSH_PROMISE} then MAX_HEADER_BYTES
    else if t in {GOAWAY, CANCEL_PUSH, MAX_PUSH_ID} then MAX_SINGLE_VARINT_FRAME_BYTES
    else MAX_BUFFERED_FRAME_BYTES
  }

  datatype Status = Incomplete | Skipped | Complete(frame: Frame) | Bad(error: FrameError)

  /** A known frame whose payload is there. */
  function DecodePayload(t: nat, payload: seq<byte>): (s: Status)
    requires KnownType(t) && t != DATA
    ensures s != Incomplete && s != Skipped
  {
    if t == HEADERS then Complete(HeadersFrame(payload))
    else if t == PUSH_PROMISE then Complete(PushPromise)
    else if t == SETTINGS then
      match S.DecodeAll(payload, [])
      case Ok(_) => Complete(Foreign)
      case Err(e) => Bad(if e == S.Error.HttpSettings then HttpSettings else HttpFrame)
    else if t == GOAWAY then
      var id := ParseVarint(payload);
      if id.Some? && id.value.size == |payload| then Complete(Foreign) else Bad(HttpFrame)
    else if t == PRIORITY_UPDATE_REQUEST then
      if ParseVarint(payload).Some? then Complete(Foreign) else Bad(HttpFrame)
    else Complete(Foreign)
  }

  /** A frame of which the type, the length and some of the payload have been received. The payload of a
      DATA frame is not part of it. */
  function PayloadStatus(t: nat, len: nat, payload: seq<byte>): (s: Status) {
    if t == DATA then Complete(Data(len))
    else if !KnownType(t) then
      if |payload| < len then Incomplete else Skipped
    else if len > MaxFrameData(t) then Bad(HttpExcessiveLoad)
    else if |payload| < len then Incomplete
    else DecodePayload(t, payload[..len])
  }

  function FrameStatus(got: seq<byte>): (s: Status) {
    var t := ParseVarint(got);
    if t.None? then Incomplete
    else if ReservedType(t.value.value) then Bad(HttpFrameUnexpected)
    else
      var l := ParseVarint(got[t.value.size..]);
      if l.None? then Incomplete
      else PayloadStatus(t.value.value, l.value.value, got[t.value.size..][l.value.size..])
  }

  /** Where reading a byte stream gets to, starting with `got` bytes of a frame: in the middle of a frame,
      or at the first frame or error, with the bytes behind it. */
  datatype ReadOutcome =
    | Reading(got: seq<byte>)
    | Output(frame: Frame, rest: seq<byte>)
    | Stopped(error: FrameError, rest: seq<byte>)

  function ReadRun(got: seq<byte>, bytes: seq<byte>): (r: ReadOutcome)
    decreases |bytes|
  {
    if bytes == [] then Reading(got)
    else
      var got', rest := got + [bytes[0]], bytes[1..];
      match FrameStatus(got')
      case Incomplete => ReadRun(got', rest)
      case Skipped => ReadRun([], rest)
      case Complete(f) => Output(f, rest)
      case Bad(e) => Stopped(e, rest)
  }

  /** Reading goes on where it stopped. */
  lemma {:induction false} ReadRunConcat(got: seq<byte>, a: seq<byte>, b: seq<byte>)
    ensures match ReadRun(got, a)
            case Reading(g) => ReadRun(got, a + b) == ReadRun(g, b)
            case Output(f, rest) => ReadRun(got, a + b) == Output(f, rest + b)
            case Stopped(e, rest) => ReadRun(got, a + b) == Stopped(e, rest + b)
    decreases |a|
  {
    if a == [] {
      assert a + b == b;
    } else {
      assert (a + b)[0] == a[0] && (a + b)[1..] == a[1..] + b;
      match FrameStatus(got + [a[0]])
      case Incomplete => ReadRunConcat(got + [a[0]], a[1..], b);
      case Skipped => ReadRunConcat([], a[1..], b);
      case Complete(_) =>
      case Bad(_) =>
    }
  }

  ghost predicate Quiet(got: seq<byte>, bytes: seq<byte>) {
    forall k :: 0 < k < |bytes| ==> FrameStatus(got + bytes[..k]) == Incomplete
  }

  function Classify(s: Status, got: seq<byte>): (r: ReadOutcome) {
    match s
    case Incomplete => Reading(got)
    case Skipped => Reading([])
    case Complete(f) => Output(f, [])
    case Bad(e) => Stopped(e, [])
  }

  lemma QuietTail(got: seq<byte>, bytes: seq<byte>)
    requires |bytes| > 1 && Quiet(got, bytes)
    ensures FrameStatus(got + [bytes[0]]) == Incomplete
    ensures Quiet(got + [bytes[0]], bytes[1..])
  {
    var first, rest := [bytes[0]], bytes[1..];
    assert bytes[..1] == first;
    forall k | 0 < k < |rest|
      ensures FrameStatus(got + first + rest[..k]) == Incomplete
    {
      assert got + first + rest[..k] == got + bytes[..k + 1];
    }
  }

  /** Bytes that only matter together can be taken together. */
  lemma {:induction false} ReadRunQuiet(got: seq<byte>, bytes: seq<byte>)
    requires bytes != [] && Quiet(got, bytes)
    ensures ReadRun(got, bytes) == Classify(FrameStatus(got + bytes), got + bytes)
    decreases |bytes|
  {
    var first, rest := [bytes[0]], bytes[1..];
    assert got + first + rest == got + bytes by {
      assert bytes == first + rest;
    }
    if rest == [] {
      assert got + first == got + bytes;
    } else {
      QuietTail(got, bytes);
      ReadRunQuiet(got + first, rest);
    }
  }
}
