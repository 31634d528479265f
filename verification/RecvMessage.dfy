/** The receiving side of an HTTP message: frames are read as they arrive, header sections are decoded and
    checked, and the application takes the body in pieces of its own choosing. Whatever the pieces are, the
    object follows the reference `Messages.Run` on the bytes it has taken from the stream.
 */
module RecvMessages {
  import opened Bits
  import opened Varint
  import opened Transport
  import opened Frames
  import opened FrameReaders
  import opened Headers
  import opened Messages

  /** The three waiting states read frames with the object's frame reader. */
  datatype RecvState =
    | WaitingForResponseHeaders
    | DecodingHeaders(block: seq<byte>, fin: bool)
    | WaitingForData
    | ReadingData(remaining: nat)
    | WaitingForFinAfterTrailers
    | ClosePending
    | Closed
    | ExtendedConnect

  predicate Waiting(s: RecvState) {
    s.WaitingForResponseHeaders? || s.WaitingForData? || s.WaitingForFinAfterTrailers?
  }

  predicate Closing(s: RecvState) {
    s.ClosePending? || s.Closed?
  }

  /** The header section has been delivered, and the end of the message has not. */
  predicate PastHeaders(s: RecvState) {
    s.WaitingForData? || s.ReadingData? || s.WaitingForFinAfterTrailers? || s.ClosePending?
  }

  /** There is something for the application to read: data, or the end. */
  predicate Readable(s: RecvState) {
    s.ReadingData? || s.ClosePending?
  }

  function Told(b: bool): nat {
    if b then 1 else 0
  }

  function PhaseOf(s: RecvState): Phase {
    if s.WaitingForResponseHeaders? then WaitHeaders else if s.WaitingForData? then WaitData else WaitFin
  }

  /** An error is due: the bytes were wrong, or the stream ended in the wrong place. */
  predicate Fails(m: Message, e: FrameError, fin: bool) {
    m.at == Messages.Failed(e) || (fin && EndError(m) == Some(e))
  }

  /** A stream that ends with an informational response lacks the real one. */
  lemma InterimEnds(mt: MessageType, m: Message, s: Section, hs: seq<Header>)
    requires Checked(mt, hs) == Some(s) && s.interim
    ensures EndError(OnSection(m, s)) == Some(HttpGeneralProtocolStream)
  {
  }

  /** A frame, if there is one, seen from where frames are read. */
  ghost function AfterFrame(cfg: Config, m: Message, frame: Option<Frame>): Message
    requires m.at.Between?
  {
    if frame.None? then m else OnFrame(cfg, m, m.at.phase, frame.value)
  }

  /** A message that has read c up to a frame, to `got` bytes of one, or to an error. */
  ghost predicate Took(cfg: Config, m: Message, c: seq<byte>, res: Res<(Option<Frame>, bool)>, got: seq<byte>, fin: bool)
    requires m.at.Between?
  {
    match res
    case Ok((frame, f)) =>
      && AfterFrame(cfg, m.(at := Between(m.at.phase, got)), frame) == Run(cfg, m, c) && f == fin
      && (frame.Some? ==> c != [] && got == []) && (fin ==> got == [])
    case Err(e) => Fails(Run(cfg, m, c), e, fin)
  }

  lemma TookReceived(cfg: Config, m: Message, c: seq<byte>, res: Res<(Option<Frame>, bool)>, got: seq<byte>, fin: bool)
    requires m.at.Between? && Received(ReadRun(m.at.got, c), res, got, fin)
    requires res == Ok((None, false)) ==> !fin
    ensures Took(cfg, m, c, res, got, fin)
  {
    RunFrames(cfg, m, c);
  }

  /** The reference after the type of a first frame. */
  ghost function AfterType(t: varint): Message {
    Message(Between(WaitHeaders, EncodeVarint(t)), [], [])
  }

  /** The buffer has data in [from, to), and what it had elsewhere. */
  twostate predicate Wrote(buf: array<byte>, from: nat, to: nat, data: seq<byte>)
    reads buf
  {
    && from <= to <= buf.Length && buf[from..to] == data
    && buf[..from] == old(buf[..from]) && buf[to..] == old(buf[to..])
  }

  method CopyInto(buf: array<byte>, at: nat, data: seq<byte>)
    requires at + |data| <= buf.Length
    modifies buf
    ensures Wrote(buf, at, at + |data|, data)
  {
    forall i | 0 <= i < |data| {
      buf[at + i] := data[i];
    }
    assert buf[at..at + |data|] == data;
    assert buf[..at] == old(buf[..at]);
    assert buf[at + |data|..] == old(buf[at + |data|..]);
  }

  lemma Joined(s: seq<byte>, i: nat, j: nat, a: seq<byte>, b: seq<byte>)
    requires i <= j <= |s| && s[..i] == a && s[i..j] == b
    ensures s[..j] == a + b
  {
  }

  /** First c has been read, and then d. */
  lemma BytesRead(cfg: Config, m: Message, c: seq<byte>, d: seq<byte>, avail: seq<byte>, consumed: seq<byte>)
    ensures Run(cfg, Run(cfg, m, c), d) == Run(cfg, m, c + d)
    ensures c + (d + avail) == c + d + avail && consumed + c + d == consumed + (c + d)
  {
    RunConcat(cfg, m, c, d);
    ConcatAssoc(c, d, avail);
    ConcatAssoc(consumed, c, d);
  }

  class RecvMessage {
    const cfg: Config
    var state: RecvState
    var reader: FrameReader
    // What the application has been told: header sections, readable data, and the end.
    var sections: seq<Section>
    var readable: nat
    var closings: nat
    // The reference's view, except that a header block being decoded is still outstanding.
    ghost var msg: Message
    // The end of the stream has been read.
    ghost var ended: bool

    ghost predicate StateMatches()
      reads this, reader, reader.state.Object()
    {
      match state
      case DecodingHeaders(block, fin) => block != [] && ended == fin
      case ReadingData(n) => n > 0 && msg.at == InBody(n) && !ended
      case ClosePending => ended && EndError(msg) == None
      case Closed => ended && EndError(msg) == None
      case ExtendedConnect => msg.at == Extended && !ended
      case _ => reader.Valid() && reader.state.Object() != this && msg.at == Between(PhaseOf(state), reader.got) && !ended
    }

    ghost predicate Valid()
      reads this, reader, reader.state.Object()
    {
      && StateMatches()
      && sections == msg.sections
      && closings == (if state.Closed? then 1 else 0)
    }

    /** The transport stream is not part of the reader. */
    ghost predicate Apart(tr: object)
      reads this, reader
    {
      tr != reader.state.Object()
    }

    /** Where the reference is after the bytes taken so far. */
    ghost function Now(): Message
      reads this
    {
      if state.DecodingHeaders? then OnBlock(cfg, msg, state.block) else msg
    }

    constructor (config: Config)
      ensures Valid() && cfg == config && Now() == Start && state == WaitingForResponseHeaders
      ensures fresh(reader) && fresh(reader.state.Object()) && !ended && readable == 0 && closings == 0
    {
      cfg := config;
      state := WaitingForResponseHeaders;
      reader := new FrameReader();
      sections, readable, closings, msg, ended := [], 0, 0, Start, false;
    }

    /** A message whose reader has something of the first frame already. */
    constructor StartingWith(config: Config, r: FrameReader)
      requires r.Valid()
      ensures Valid() && cfg == config && Now() == Message(Between(WaitHeaders, r.got), [], [])
      ensures state == WaitingForResponseHeaders && reader == r && !ended && readable == 0 && closings == 0
    {
      cfg := config;
      state := WaitingForResponseHeaders;
      reader := r;
      sections, readable, closings, msg, ended := [], 0, 0, Message(Between(WaitHeaders, r.got), [], []), false;
      new;
      assert unchanged(r) && unchanged(r.state.Object());
    }

    /** A server has read the type of the first frame when it finds out that the stream is a request. */
    static method WithFirstFrameType(config: Config, t: varint) returns (m: RecvMessage)
      requires !ReservedType(t)
      ensures fresh(m) && fresh(m.reader) && fresh(m.reader.state.Object())
      ensures m.Valid() && m.cfg == config && m.Now() == AfterType(t) && m.state == WaitingForResponseHeaders && !m.ended
    {
      var r := new FrameReader.WithType(t);
      m := new RecvMessage.StartingWith(config, r);
    }

    method SetClosed()
      requires sections == msg.sections && closings == 0
      requires ended && EndError(msg) == None
      modifies this`state, this`closings
      ensures Valid() && state == Closed
    {
      state := Closed;
      closings := closings + 1;
    }

    /** A frame arrived in a waiting state. */
    method HandleFrame(f: Frame, fin: bool) returns (r: Res<()>)
      requires Valid() && Waiting(state) && reader.got == []
      modifies this`state, this`reader, this`msg, this`ended
      ensures r.Ok? && old(PastHeaders(state)) ==> PastHeaders(state)
      ensures r.Ok? ==> msg.body == old(msg.body)
      ensures r.Ok? ==> Now() == OnFrame(cfg, old(msg), PhaseOf(old(state)), f)
      ensures r.Ok? && !fin ==> Valid()
      ensures r.Ok? && fin && state.DecodingHeaders? ==> Valid()
      ensures r.Ok? && fin && !state.DecodingHeaders? ==> Waiting(state) && msg.at == Between(PhaseOf(state), [])
      ensures r.Ok? ==> sections == msg.sections && closings == 0 && !Closing(state)
      ensures r.Ok? && state.DecodingHeaders? ==> state.fin == fin
      ensures r.Ok? && !state.DecodingHeaders? ==> !ended
      ensures r.Err? ==> Fails(OnFrame(cfg, old(msg), PhaseOf(old(state)), f), r.error, fin)
      ensures reader == old(reader) || (fresh(reader) && fresh(reader.state.Object()))
    {
      match f {
        case Data(len) =>
          if state != WaitingForData {
            return Err(HttpFrameUnexpected);
          }
          if len > 0 {
            if fin {
              return Err(HttpFrame);
            }
            state := ReadingData(len);
            msg := msg.(at := InBody(len));
          }
        case HeadersFrame(block) =>
          match state {
            case WaitingForResponseHeaders =>
              if block == [] {
                return Err(HttpGeneralProtocolStream);
              }
              state := DecodingHeaders(block, fin);
              ended := fin;
            case WaitingForData =>
              reader := new FrameReader();
              state := WaitingForFinAfterTrailers;
              msg := msg.(at := Between(WaitFin, []));
            case _ => return Err(HttpFrameUnexpected);
          }
        case PushPromise =>
          return Err(if cfg.mt == Response then HttpId else HttpFrameUnexpected);
        case Foreign =>
          return Err(HttpFrameUnexpected);
      }
      r := Ok(());
    }

    /** A header section has been decoded. */
    method AddHeaders(hs: seq<Header>, fin: bool) returns (r: Res<()>)
      requires Valid() && state.DecodingHeaders? && state.fin == fin && cfg.decode(state.block) == Some(hs)
      modifies this
      ensures readable == old(readable)
      ensures r.Ok? ==> msg.body == old(msg.body)
      ensures r.Ok? ==> Valid() && Now() == old(Now()) && ended == fin && !state.DecodingHeaders?
      ensures r.Ok? && !fin ==> Waiting(state) || state.ExtendedConnect?
      ensures r.Ok? && fin ==> state == Closed
      ensures r.Err? ==> Fails(old(Now()), r.error, fin)
      ensures reader == old(reader) || (fresh(reader) && fresh(reader.state.Object()))
    {
      var section := CheckSection(hs);
      if section.None? {
        return Err(InvalidHeader);
      }
      if fin && section.value.interim {
        InterimEnds(cfg.mt, msg, section.value, hs);
        return Err(HttpGeneralProtocolStream);
      }
      Deliver(section.value, fin);
      r := Ok(());
    }

    method CheckSection(hs: seq<Header>) returns (s: Option<Section>)
      ensures s == Checked(cfg.mt, hs)
    {
      var interim := if cfg.mt == Request then Some(false) else IsInterim(hs);
      if interim.None? {
        return None;
      }
      var valid := HeadersValid(hs, cfg.mt);
      if !valid {
        return None;
      }
      var connect := ContainsHeader(hs, ":method", "CONNECT");
      var protocol := FindHeader(hs, ":protocol");
      s := Some(Section(if cfg.mt == Response then Retained(hs) else hs, interim.value,
                        cfg.mt == Request && connect && protocol.Some?));
    }

    method Deliver(s: Section, fin: bool)
      requires sections == msg.sections && closings == 0 && ended == fin
      requires fin ==> !s.interim
      modifies this
      ensures readable == old(readable)
      ensures msg.body == old(msg.body)
      ensures Valid() && Now() == OnSection(old(msg), s) && ended == old(ended)
      ensures if fin then state == Closed else Waiting(state) || state.ExtendedConnect?
      ensures reader == old(reader) || (fresh(reader) && fresh(reader.state.Object()))
    {
      msg := OnSection(msg, s);
      sections := sections + [s];
      if fin {
        SetClosed();
      } else if s.extended {
        state := ExtendedConnect;
      } else {
        Await(if s.interim then WaitingForResponseHeaders else WaitingForData);
      }
    }

    /** Go on with a new frame. */
    method Await(next: RecvState)
      requires sections == msg.sections && closings == 0 && !ended
      requires Waiting(next) && msg.at == Between(PhaseOf(next), [])
      modifies this`state, this`reader
      ensures Valid() && state == next
      ensures fresh(reader) && fresh(reader.state.Object())
    {
      reader := new FrameReader();
      state := next;
    }

    /** The stream ended while waiting for a frame. */
    method SetStateToClosePending(post: bool) returns (r: Res<()>)
      requires Waiting(state) && msg.at == Between(PhaseOf(state), []) && !ended
      requires sections == msg.sections && closings == 0
      modifies this`state, this`readable, this`ended
      ensures r.Ok? ==> readable == old(readable) + Told(post)
      ensures r.Ok? ==> Valid() && state == ClosePending && ended
      ensures r.Err? ==> EndError(msg) == Some(r.error)
    {
      if state.WaitingForResponseHeaders? {
        return Err(HttpGeneralProtocolStream);
      }
      if post {
        readable := readable + 1;
      }
      state := ClosePending;
      ended := true;
      r := Ok(());
    }

    /** Let the frame reader go on. */
    method TakeFrame(tr: RecvEnd) returns (res: Res<(Option<Frame>, bool)>, ghost c: seq<byte>)
      requires Valid() && Waiting(state) && tr.Valid() && Apart(tr) && !tr.finRead
      modifies this`msg, reader, reader.state.Object(), tr
      ensures tr.Read(c)
      ensures Took(cfg, old(msg), c, res, reader.got, tr.finRead)
      ensures msg == old(msg).(at := Between(PhaseOf(state), reader.got))
      ensures res.Ok? ==> Valid()
      ensures res == Ok((None, false)) ==> tr.avail == [] && !tr.finArrived
      ensures reader.state.Object() == old(reader.state.Object()) || fresh(reader.state.Object())
    {
      res, c := reader.Receive(tr);
      TookReceived(cfg, msg, c, res, reader.got, tr.finRead);
      msg := msg.(at := Between(PhaseOf(state), reader.got));
    }

    /** Act on what the frame reader returned. `stop` says that there is nothing more to do for now. */
    method HandleResult(frame: Option<Frame>, fin: bool, post: bool) returns (r: Res<()>, stop: bool)
      requires Valid() && Waiting(state) && (frame.Some? || fin ==> reader.got == [])
      modifies this
      ensures r.Ok? ==> readable == old(readable) + Told(post && state.ClosePending?)
      ensures r.Ok? && old(PastHeaders(state)) ==> PastHeaders(state)
      ensures r.Ok? ==> msg.body == old(msg.body)
      ensures r.Ok? ==> Valid() && Now() == AfterFrame(cfg, old(msg), frame) && ended == fin
      ensures r.Err? ==> Fails(AfterFrame(cfg, old(msg), frame), r.error, fin)
      ensures r.Ok? && !stop ==> frame.Some? && !Closing(state)
      ensures r.Ok? && stop ==> state.ClosePending? || (Waiting(state) && frame.None? && !fin)
      ensures reader == old(reader) || (fresh(reader) && fresh(reader.state.Object()))
    {
      stop := true;
      if frame.None? {
        if fin {
          r := SetStateToClosePending(post);
        } else {
          r := Ok(());
        }
        return;
      }
      r := HandleFrame(frame.value, fin);
      if r.Ok? {
        if fin && !state.DecodingHeaders? {
          r := SetStateToClosePending(post);
        } else {
          stop := false;
        }
      }
    }

    /** Read one frame, if it is there, and act on it. */
    method ReadFrame(tr: RecvEnd, post: bool) returns (r: Res<()>, stop: bool, ghost c: seq<byte>)
      requires Valid() && Waiting(state) && tr.Valid() && Apart(tr) && tr.finRead == ended
      modifies this, reader, reader.state.Object(), tr
      ensures r.Ok? ==> readable == old(readable) + Told(post && state.ClosePending?)
      ensures r.Ok? && old(PastHeaders(state)) ==> PastHeaders(state)
      ensures r.Ok? ==> msg.body == old(msg.body)
      ensures tr.Read(c)
      ensures r.Ok? ==> Valid() && Now() == Run(cfg, old(msg), c) && tr.finRead == ended
      ensures r.Err? ==> Fails(Run(cfg, old(msg), c), r.error, tr.finRead)
      ensures r.Ok? && !stop ==> !Closing(state) && c != []
      ensures r.Ok? && stop ==> state.ClosePending? || (Waiting(state) && tr.avail == [] && !tr.finArrived)
      ensures reader == old(reader) || fresh(reader)
      ensures reader.state.Object() == old(reader.state.Object()) || fresh(reader.state.Object())
    {
      var res;
      res, c := TakeFrame(tr);
      if res.Err? {
        return Err(res.error), true, c;
      }
      r, stop := HandleResult(res.value.0, res.value.1, post);
    }

    /** Decode the outstanding header block, unless QPACK is blocked on it. */
    method DecodeBlock(blocked: bool) returns (r: Res<()>, stop: bool)
      requires Valid() && state.DecodingHeaders?
      modifies this
      ensures readable == old(readable)
      ensures r.Ok? ==> msg.body == old(msg.body)
      ensures r.Ok? ==> Valid() && Now() == old(Now()) && ended == old(ended)
      ensures r.Err? ==> Fails(old(Now()), r.error, old(ended))
      ensures r.Ok? && !stop ==> Waiting(state)
      ensures stop && r.Ok? ==> (blocked && state == old(state)) || state.Closed? || state.ExtendedConnect?
      ensures reader == old(reader) || (fresh(reader) && fresh(reader.state.Object()))
    {
      if blocked {
        return Ok(()), true;
      }
      var hs := cfg.decode(state.block);
      if hs.None? {
        return Err(QpackFailed), true;
      }
      r := AddHeaders(hs.value, state.fin);
      stop := r.Ok? && (state.Closed? || state.ExtendedConnect?);
    }

    /** One turn of the loop below: a frame, or a header block. */
    method Advance(tr: RecvEnd, post: bool, blocked: seq<byte> -> bool)
      returns (r: Res<()>, stop: bool, ghost c: seq<byte>)
      requires Valid() && !Closing(state) && Apart(tr) && tr.Valid() && tr.finRead == ended
      modifies this, reader, reader.state.Object(), tr
      ensures r.Ok? ==> readable == old(readable) + Told(post && stop && Readable(state))
      ensures r.Ok? && old(PastHeaders(state)) ==> PastHeaders(state)
      ensures r.Ok? ==> msg.body == old(msg.body)
      ensures tr.Read(c)
      ensures r.Ok? ==> Valid() && Now() == Run(cfg, old(Now()), c) && tr.finRead == ended
      ensures r.Ok? && stop ==> Settled(tr, blocked)
      ensures r.Ok? && !stop ==> !Closing(state) && (c != [] || (old(state.DecodingHeaders?) && !state.DecodingHeaders?))
      ensures r.Err? ==> Fails(Run(cfg, old(Now()), c), r.error, tr.finRead)
      ensures reader == old(reader) || fresh(reader)
      ensures reader.state.Object() == old(reader.state.Object()) || fresh(reader.state.Object())
    {
      if Waiting(state) {
        r, stop, c := ReadFrame(tr, post);
        return;
      }
      c := [];
      assert tr.consumed + c == tr.consumed;
      if state.DecodingHeaders? {
        r, stop := DecodeBlock(blocked(state.block));
        return;
      }
      if state.ReadingData? && post {
        readable := readable + 1;
      }
      r, stop := Ok(()), true;
    }

    /** There is nothing more to do before more bytes arrive, a header block can be decoded, or the
        application reads. */
    ghost predicate Settled(tr: RecvEnd, blocked: seq<byte> -> bool)
      reads this, tr
    {
      && (Waiting(state) ==> tr.Dry())
      && (state.DecodingHeaders? ==> blocked(state.block))
    }

    /** Read frames and decode headers as far as that is possible. `c` is what was read. */
    method ReceiveInternal(tr: RecvEnd, post: bool, blocked: seq<byte> -> bool) returns (r: Res<()>, ghost c: seq<byte>)
      requires Valid() && !Closing(state) && Apart(tr) && tr.Valid() && tr.finRead == ended
      modifies this, reader, reader.state.Object(), tr
      ensures r.Ok? ==> readable == old(readable) + Told(post && Readable(state))
      ensures r.Ok? && old(PastHeaders(state)) ==> PastHeaders(state)
      ensures r.Ok? ==> msg.body == old(msg.body)
      ensures tr.Read(c)
      ensures r.Ok? ==> Valid() && Now() == Run(cfg, old(Now()), c) && tr.finRead == ended && Settled(tr, blocked)
      ensures r.Err? ==> Fails(Run(cfg, old(Now()), c), r.error, tr.finRead)
      ensures reader == old(reader) || fresh(reader)
      ensures reader.state.Object() == old(reader.state.Object()) || fresh(reader.state.Object())
    {
      c := [];
      while true
        invariant Valid() && !Closing(state) && tr.Read(c) && tr.finRead == ended
        invariant Now() == Run(cfg, old(Now()), c) && msg.body == old(msg.body)
        invariant old(PastHeaders(state)) ==> PastHeaders(state)
        invariant readable == old(readable)
        invariant reader == old(reader) || fresh(reader)
        invariant reader.state.Object() == old(reader.state.Object()) || fresh(reader.state.Object())
        decreases |tr.avail|, state.DecodingHeaders?
      {
        ghost var d;
        var stop;
        r, stop, d := Advance(tr, post, blocked);
        RunConcat(cfg, old(Now()), c, d);
        ConcatAssoc(c, d, tr.avail);
        ConcatAssoc(old(tr.consumed), c, d);
        c := c + d;
        if r.Err? || stop {
          return;
        }
      }
    }

    /** The transport has data or the end of the stream. */
    method Receive(tr: RecvEnd, blocked: seq<byte> -> bool) returns (r: Res<bool>, ghost c: seq<byte>)
      requires Valid() && !Closing(state) && Apart(tr) && tr.Valid() && tr.finRead == ended
      modifies this, reader, reader.state.Object(), tr
      ensures r.Ok? ==> readable == old(readable) + Told(Readable(state))
      ensures tr.Read(c)
      ensures r.Ok? ==> Valid() && Now() == Run(cfg, old(Now()), c) && tr.finRead == ended && Settled(tr, blocked)
      ensures r.Ok? ==> msg.body == old(msg.body) && r.value == state.Closed?
      ensures r.Err? ==> Fails(Run(cfg, old(Now()), c), r.error, tr.finRead)
      ensures reader == old(reader) || fresh(reader)
      ensures reader.state.Object() == old(reader.state.Object()) || fresh(reader.state.Object())
    {
      var res;
      res, c := ReceiveInternal(tr, true, blocked);
      if res.Err? {
        return Err(res.error), c;
      }
      r := Ok(state.Closed?);
    }

    /** Move payload bytes into the buffer, from `written` on. */
    method Fill(tr: RecvEnd, buf: array<byte>, written: nat) returns (amount: nat, fin: bool, ghost c: seq<byte>)
      requires Valid() && state.ReadingData? && tr.Valid() && !tr.finRead && written <= buf.Length
      modifies this`state, this`msg, tr, buf
      ensures tr.Read(c) && fin == tr.finRead
      ensures Wrote(buf, written, written + amount, c)
      ensures msg == Run(cfg, old(msg), c) && msg.body == old(msg.body) + c && msg.sections == old(msg.sections)
      ensures state.ReadingData? && amount == |c| && old(state.remaining) == state.remaining + amount
      ensures msg.at == if state.remaining == 0 then Between(WaitData, []) else InBody(state.remaining)
      ensures state.remaining > 0 ==> fin || written + amount == buf.Length || tr.Dry()
    {
      var toRead := Min(state.remaining, buf.Length - written);
      var res := tr.Recv(toRead);
      var data := res.value.0;
      amount, fin, c := |data|, res.value.1, data;
      CopyInto(buf, written, data);
      state := ReadingData(state.remaining - amount);
      RunBody(cfg, msg, c);
      msg := Run(cfg, msg, c);
    }

    /** The payload of a frame has been read: go on to the next one. */
    method NextFrame(tr: RecvEnd, blocked: seq<byte> -> bool) returns (r: Res<()>, ghost c: seq<byte>)
      requires state == ReadingData(0) && msg.at == Between(WaitData, []) && !ended
      requires sections == msg.sections && closings == 0 && tr.Valid() && !tr.finRead
      modifies this, tr
      ensures tr.Read(c)
      ensures r.Ok? ==> Valid() && PastHeaders(state) && Settled(tr, blocked) && tr.finRead == ended
      ensures r.Ok? ==> msg == Run(cfg, old(msg), c) && msg.body == old(msg.body) && readable == old(readable)
      ensures r.Err? ==> Fails(Run(cfg, old(msg), c), r.error, tr.finRead)
      ensures fresh(reader) && fresh(reader.state.Object())
    {
      Await(WaitingForData);
      r, c := ReceiveInternal(tr, false, blocked);
    }

    /** Read from the current frame. `stop` means that the application gets what has been written. */
    method ReadCurrent(tr: RecvEnd, buf: array<byte>, written: nat)
      returns (r: Res<bool>, n: nat, stop: bool, ghost c: seq<byte>)
      requires Valid() && state.ReadingData? && Apart(buf) && tr.Valid() && !tr.finRead && written <= buf.Length
      modifies this`state, this`msg, this`ended, this`closings, tr, buf
      ensures tr.Read(c) && Wrote(buf, written, n, c)
      ensures msg == Run(cfg, old(msg), c) && msg.body == old(msg.body) + c
      ensures r.Ok? && stop ==> Valid() && tr.finRead == ended && (if r.value then state.Closed? else state.ReadingData?)
      ensures r.Ok? && stop && !r.value ==> n == buf.Length || tr.Dry()
      ensures r.Ok? && !stop ==> state == ReadingData(0) && msg.at == Between(WaitData, []) && c != []
      ensures r.Ok? && !stop ==> !ended && !tr.finRead && sections == msg.sections && closings == 0
      ensures r.Err? ==> stop && Fails(msg, r.error, tr.finRead)
    {
      var amount, fin;
      amount, fin, c := Fill(tr, buf, written);
      n, stop := written + amount, fin || state.remaining > 0;
      if fin {
        if state.remaining > 0 {
          return Err(HttpFrame), n, true, c;
        }
        ended := true;
        SetClosed();
      }
      r := Ok(fin);
    }

    /** One turn of the loop below. */
    method ReadMore(tr: RecvEnd, buf: array<byte>, written: nat, blocked: seq<byte> -> bool)
      returns (r: Res<bool>, n: nat, stop: bool, ghost c: seq<byte>, ghost data: seq<byte>)
      requires Valid() && state.ReadingData? && Apart(tr) && Apart(buf) && tr.Valid() && tr.finRead == ended
      requires written <= buf.Length
      modifies this, tr, buf
      ensures tr.Read(c) && Wrote(buf, written, n, data)
      ensures r.Ok? ==> Valid() && tr.finRead == ended
      ensures r.Ok? ==> msg == Run(cfg, old(msg), c) && msg.body == old(msg.body) + data && readable == old(readable)
      ensures r.Ok? && stop ==> if r.value then state.Closed? else state.ReadingData?
      ensures r.Ok? && stop && !r.value ==> n == buf.Length || tr.Dry()
      ensures r.Ok? && !stop ==> PastHeaders(state) && Settled(tr, blocked) && |tr.avail| < old(|tr.avail|)
      ensures r.Err? ==> Fails(Run(cfg, old(msg), c), r.error, tr.finRead)
      ensures reader == old(reader) || (fresh(reader) && fresh(reader.state.Object()))
    {
      r, n, stop, c := ReadCurrent(tr, buf, written);
      data := c;
      if stop {
        return;
      }
      ghost var d;
      var next;
      next, d := NextFrame(tr, blocked);
      RunConcat(cfg, old(msg), c, d);
      ConcatAssoc(c, d, tr.avail);
      ConcatAssoc(old(tr.consumed), c, d);
      c := c + d;
      r := if next.Ok? then Ok(false) else Err(next.error);
    }

    /** Read from frame to frame, until the buffer is full, the transport has run dry, or the message ends. */
    method ReadBody(tr: RecvEnd, buf: array<byte>, blocked: seq<byte> -> bool)
      returns (r: Res<bool>, n: nat, stop: bool, ghost c: seq<byte>, ghost data: seq<byte>)
      requires Valid() && state.ReadingData? && Apart(tr) && Apart(buf) && tr.Valid() && tr.finRead == ended
      modifies this, tr, buf
      ensures tr.Read(c) && Wrote(buf, 0, n, data)
      ensures r.Ok? ==> Valid() && tr.finRead == ended
      ensures r.Ok? ==> msg == Run(cfg, old(msg), c) && msg.body == old(msg.body) + data && readable == old(readable)
      ensures r.Ok? && stop ==> if r.value then state.Closed? else state.ReadingData?
      ensures r.Ok? && stop && !r.value ==> n == buf.Length || tr.Dry()
      ensures r.Ok? && !stop ==> PastHeaders(state) && !state.ReadingData? && Settled(tr, blocked)
      ensures r.Err? ==> Fails(Run(cfg, old(msg), c), r.error, tr.finRead)
      ensures reader == old(reader) || (fresh(reader) && fresh(reader.state.Object()))
    {
      c, data, n := [], [], 0;
      assert buf[0..0] == [] && msg.body + data == msg.body;
      while state.ReadingData?
        invariant Valid() && tr.Read(c) && tr.finRead == ended && PastHeaders(state)
        invariant msg == Run(cfg, old(msg), c) && msg.body == old(msg.body) + data && readable == old(readable)
        invariant Wrote(buf, 0, n, data) && (!state.ReadingData? ==> Settled(tr, blocked))
        invariant reader == old(reader) || (fresh(reader) && fresh(reader.state.Object()))
        decreases |tr.avail|
      {
        ghost var d, more;
        r, n, stop, d, more := ReadMore(tr, buf, n, blocked);
        BytesRead(cfg, old(msg), c, d, tr.avail, old(tr.consumed));
        ConcatAssoc(old(msg.body), data, more);
        Joined(buf[..], n - |more|, n, data, more);
        c, data := c + d, data + more;
        if r.Err? || stop {
          return;
        }
      }
      r, stop := Ok(false), false;
    }

    /** The application reads the body. What it gets is exactly what the body grows by; the end is reported
        in the call that closes the stream, and only when nothing is missing. A buffer that is not filled
        means the end, or that the transport has run dry. */
    method ReadData(tr: RecvEnd, buf: array<byte>, blocked: seq<byte> -> bool)
      returns (r: Res<(nat, bool)>, ghost c: seq<byte>, ghost data: seq<byte>)
      requires Valid() && Apart(tr) && Apart(buf) && tr.Valid() && tr.finRead == ended
      modifies this, tr, buf
      ensures tr.Read(c)
      ensures r.Ok? ==> Valid() && tr.finRead == ended && Now() == Run(cfg, old(Now()), c)
      ensures r.Ok? ==> Wrote(buf, 0, r.value.0, data) && Now().body == old(Now()).body + data && readable == old(readable)
      ensures r.Ok? && r.value.1 ==> old(!state.Closed?) && state.Closed? && ended && EndError(msg) == None
      ensures r.Ok? && !r.value.1 ==> state.Closed? == old(state.Closed?) && !state.ClosePending?
      ensures r.Ok? && !r.value.1 && old(state.ReadingData?) ==>
                (r.value.0 == buf.Length && state.ReadingData?) || tr.Dry()
      ensures r.Ok? && old(state.ClosePending?) ==> r.value.1
      ensures r.Err? ==> Fails(Run(cfg, old(Now()), c), r.error, tr.finRead)
      ensures reader == old(reader) || (fresh(reader) && fresh(reader.state.Object()))
    {
      var n := 0;
      if state.ReadingData? {
        var res, stop;
        res, n, stop, c, data := ReadBody(tr, buf, blocked);
        if res.Err? {
          return Err(res.error), c, data;
        }
        if stop {
          return Ok((n, res.value)), c, data;
        }
      } else {
        c, data := [], [];
        assert buf[0..0] == [] && Now().body + data == Now().body;
      }
      if state.ClosePending? {
        SetClosed();
        return Ok((n, true)), c, data;
      }
      r := Ok((n, false));
    }
  }
}
