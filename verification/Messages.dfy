/** What the bytes of a message stream mean (section 4.1 of RFC 9114), one byte at a time: header sections,
    a body in DATA frames, and trailers, in this order. This is the reference that the receiver is proved
    against; it knows nothing of how the bytes arrive or are read.
 */
module Messages {
  import opened Bits
  import opened Frames
  import opened Headers

  /** What is expected next: the header section, data or trailers, or the end of the stream. */
  datatype Phase = WaitHeaders | WaitData | WaitFin

  datatype Position =
    | Between(phase: Phase, got: seq<byte>)  // in a frame, or between two
    | InBody(remaining: nat)                 // in the payload of a DATA frame
    | Extended                               // an Extended CONNECT request: not an HTTP message any more
    | Failed(error: FrameError)

  /** A header section as it is given to the application: an informational response, a request for a
      session, or neither. */
  datatype Section = Section(headers: seq<Header>, interim: bool, extended: bool)

  datatype Message = Message(at: Position, sections: seq<Section>, body: seq<byte>)

  /** The kind of message, and what header blocks mean: QPACK is a parameter. */
  datatype Config = Config(mt: MessageType, decode: seq<byte> -> Option<seq<Header>>)

  const Start := Message(Between(WaitHeaders, []), [], [])

  ghost predicate IsExtendedConnect(mt: MessageType, hs: seq<Header>) {
    mt == Request && HasValue(hs, ":method", "CONNECT") && Has(hs, ":protocol")
  }

  /** The header section that the application gets, or None for a malformed one. */
  ghost function Checked(mt: MessageType, hs: seq<Header>): Option<Section> {
    var interim := if mt == Request then Some(false) else IsInterim(hs);
    if interim.None? || !WellFormed(hs, mt) then None
    else Some(Section(if mt == Response then Retained(hs) else hs, interim.value, IsExtendedConnect(mt, hs)))
  }

  function OnSection(m: Message, s: Section): Message {
    Message(
      if s.extended then Extended
      else Between(if s.interim then WaitHeaders else WaitData, []),
      m.sections + [s],
      m.body)
  }

  ghost function OnHeaders(cfg: Config, m: Message, hs: seq<Header>): Message {
    var s := Checked(cfg.mt, hs);
    if s.None? then m.(at := Failed(InvalidHeader)) else OnSection(m, s.value)
  }

  ghost function OnBlock(cfg: Config, m: Message, block: seq<byte>): Message {
    match cfg.decode(block)
    case None => m.(at := Failed(QpackFailed))
    case Some(hs) => OnHeaders(cfg, m, hs)
  }

  ghost function OnFrame(cfg: Config, m: Message, phase: Phase, f: Frame): Message {
    match f
    case Data(len) =>
      if phase != WaitData then m.(at := Failed(HttpFrameUnexpected))
      else m.(at := if len > 0 then InBody(len) else Between(WaitData, []))
    case HeadersFrame(block) =>
      match phase {
        case WaitHeaders => if block == [] then m.(at := Failed(HttpGeneralProtocolStream)) else OnBlock(cfg, m, block)
        case WaitData => m.(at := Between(WaitFin, []))
        case WaitFin => m.(at := Failed(HttpFrameUnexpected))
      }
    case PushPromise => m.(at := Failed(if cfg.mt == Response then HttpId else HttpFrameUnexpected))
    case Foreign => m.(at := Failed(HttpFrameUnexpected))
  }

  ghost function Step(cfg: Config, m: Message, b: byte): Message {
    match m.at
    case Between(phase, got) =>
      (match FrameStatus(got + [b])
       case Incomplete => m.(at := Between(phase, got + [b]))
       case Skipped => m.(at := Between(phase, []))
       case Complete(f) => OnFrame(cfg, m, phase, f)
       case Bad(e) => m.(at := Failed(e)))
    case InBody(n) =>
      m.(body := m.body + [b], at := if n <= 1 then Between(WaitData, []) else InBody(n - 1))
    case Extended => m
    case Failed(_) => m
  }

  ghost function Run(cfg: Config, m: Message, bytes: seq<byte>): Message
    decreases |bytes|
  {
    if bytes == [] then m else Run(cfg, Step(cfg, m, bytes[0]), bytes[1..])
  }

  /** What is wrong if the stream ends here. */
  function EndError(m: Message): (e: Option<FrameError>) {
    match m.at
    case Between(phase, got) =>
      if got != [] then Some(HttpFrame)
      else if phase == WaitHeaders then Some(HttpGeneralProtocolStream)
      else None
    case InBody(_) => Some(HttpFrame)
    case Extended => None
    case Failed(e) => Some(e)
  }

  lemma {:induction false} RunConcat(cfg: Config, m: Message, a: seq<byte>, b: seq<byte>)
    ensures Run(cfg, m, a + b) == Run(cfg, Run(cfg, m, a), b)
    decreases |a|
  {
    if a == [] {
      assert a + b == b;
    } else {
      assert (a + b)[0] == a[0] && (a + b)[1..] == a[1..] + b;
      RunConcat(cfg, Step(cfg, m, a[0]), a[1..], b);
    }
  }

  lemma {:induction false} RunStuck(cfg: Config, m: Message, bytes: seq<byte>)
    requires m.at.Failed? || m.at.Extended?
    ensures Run(cfg, m, bytes) == m
    decreases |bytes|
  {
    if bytes != [] {
      RunStuck(cfg, m, bytes[1..]);
    }
  }

  /** Where a message gets to with its frame stream. */
  ghost function AfterRun(cfg: Config, m: Message, phase: Phase, run: ReadOutcome): Message {
    match run
    case Reading(g) => m.(at := Between(phase, g))
    case Output(f, rest) => Run(cfg, OnFrame(cfg, m, phase, f), rest)
    case Stopped(e, rest) => m.(at := Failed(e))
  }

  lemma AfterRunAnywhere(cfg: Config, m: Message, at: Position, phase: Phase, run: ReadOutcome)
    ensures AfterRun(cfg, m.(at := at), phase, run) == AfterRun(cfg, m, phase, run)
  {
  }

  /** While frames are read, a message does what the frame stream does. */
  lemma {:induction false} RunFrames(cfg: Config, m: Message, bytes: seq<byte>)
    requires m.at.Between?
    ensures Run(cfg, m, bytes) == AfterRun(cfg, m, m.at.phase, ReadRun(m.at.got, bytes))
    decreases |bytes|, 0
  {
    if bytes != [] {
      var m', rest := Step(cfg, m, bytes[0]), bytes[1..];
      match FrameStatus(m.at.got + [bytes[0]])
      case Incomplete => NextByte(cfg, m, m', rest);
      case Skipped => NextByte(cfg, m, m', rest);
      case Complete(_) =>
      case Bad(_) => RunStuck(cfg, m', rest);
    }
  }

  lemma {:induction false} NextByte(cfg: Config, m: Message, m': Message, rest: seq<byte>)
    requires m.at.Between? && m'.at.Between? && m'.at.phase == m.at.phase && m' == m.(at := m'.at)
    ensures Run(cfg, m', rest) == AfterRun(cfg, m, m.at.phase, ReadRun(m'.at.got, rest))
    decreases |rest|, 1
  {
    RunFrames(cfg, m', rest);
    AfterRunAnywhere(cfg, m, m'.at, m.at.phase, ReadRun(m'.at.got, rest));
  }

  /** Payload bytes go to the body. */
  lemma {:induction false} RunBody(cfg: Config, m: Message, bytes: seq<byte>)
    requires m.at.InBody? && m.at.remaining > 0 && |bytes| <= m.at.remaining
    ensures Run(cfg, m, bytes)
         == Message(if |bytes| == m.at.remaining then Between(WaitData, []) else InBody(m.at.remaining - |bytes|),
                    m.sections, m.body + bytes)
    decreases |bytes|
  {
    if bytes == [] {
      assert m.body + [] == m.body;
    } else {
      var m' := Step(cfg, m, bytes[0]);
      if |bytes| == 1 {
        assert bytes == [bytes[0]];
        assert Run(cfg, m', bytes[1..]) == m';
      } else {
        RunBody(cfg, m', bytes[1..]);
        assert m.body + [bytes[0]] + bytes[1..] == m.body + bytes;
      }
    }
  }

  predicate Extends(m: Message, m': Message) {
    m.body <= m'.body && m.sections <= m'.sections
  }

  lemma OnFrameGrows(cfg: Config, m: Message, phase: Phase, f: Frame)
    ensures Extends(m, OnFrame(cfg, m, phase, f))
  {
  }

  lemma StepGrows(cfg: Config, m: Message, b: byte)
    ensures Extends(m, Step(cfg, m, b))
  {
    if m.at.Between? {
      var s := FrameStatus(m.at.got + [b]);
      if s.Complete? {
        OnFrameGrows(cfg, m, m.at.phase, s.frame);
      }
    }
  }

  /** Reading on never takes back what was delivered. */
  lemma {:induction false} RunGrows(cfg: Config, m: Message, bytes: seq<byte>)
    ensures Extends(m, Run(cfg, m, bytes))
    decreases |bytes|
  {
    if bytes != [] {
      var m' := Step(cfg, m, bytes[0]);
      StepGrows(cfg, m, bytes[0]);
      RunGrows(cfg, m', bytes[1..]);
      PrefixTransitive(m.body, m'.body, Run(cfg, m', bytes[1..]).body);
      PrefixTransitive(m.sections, m'.sections, Run(cfg, m', bytes[1..]).sections);
    }
  }

  /** So what a receiver has after a part of a stream is a part of what the stream holds. */
  lemma PartOfWhole(cfg: Config, part: seq<byte>, rest: seq<byte>)
    ensures Extends(Run(cfg, Start, part), Run(cfg, Start, part + rest))
  {
    RunConcat(cfg, Start, part, rest);
    RunGrows(cfg, Run(cfg, Start, part), rest);
  }

  lemma PrefixTransitive<T>(a: seq<T>, b: seq<T>, c: seq<T>)
    requires a <= b && b <= c
    ensures a <= c
  {
  }
}
