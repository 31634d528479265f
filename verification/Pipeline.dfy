/** A sender and a receiver, with a transport between them that takes and hands over any prefix at any time.
    What is sent is received: no frame error, the same header sections, and the same body.
 */
module Pipeline {
  import opened Bits
  import opened Varint
  import opened Transport
  import opened Frames
  import opened FrameReaders
  import opened Headers
  import opened Messages
  import opened RecvMessages
  import S = SendMessages

  // ----- Single frames -----

  lemma WholeVarint(v: varint)
    ensures Whole(EncodeVarint(v), v)
  {
    VarintRoundTrip(v, []);
    assert EncodeVarint(v) + [] == EncodeVarint(v);
  }

  lemma PartOfVarint(lb: seq<byte>, l: nat, k: nat)
    requires Whole(lb, l) && 0 < k < |lb|
    ensures ParseVarint(lb[..k]) == None
  {
  }

  lemma HeaderQuiet(tb: seq<byte>, t: nat, lb: seq<byte>, l: nat)
    requires Whole(tb, t) && !ReservedType(t) && Whole(lb, l)
    ensures Quiet(tb, lb)
  {
    forall k | 0 < k < |lb|
      ensures FrameStatus(tb + lb[..k]) == Incomplete
    {
      PartOfVarint(lb, l, k);
      StatusLength(tb, t, lb[..k]);
    }
  }

  lemma WholeTypeQuiet(tb: seq<byte>, t: nat)
    requires Whole(tb, t)
    ensures Quiet([], tb)
  {
    forall k | 0 < k < |tb|
      ensures FrameStatus([] + tb[..k]) == Incomplete
    {
      PartOfVarint(tb, t, k);
      assert [] + tb[..k] == tb[..k];
    }
  }

  lemma TypeRun(tb: seq<byte>, t: nat)
    requires Whole(tb, t) && !ReservedType(t)
    ensures ReadRun([], tb) == Reading(tb)
  {
    WholeTypeQuiet(tb, t);
    ReadRunQuiet([], tb);
    assert [] + tb == tb;
    StatusType(tb);
  }

  /** Reading the type and the length of a frame. */
  lemma HeaderRun(tb: seq<byte>, t: nat, lb: seq<byte>, l: nat)
    requires Whole(tb, t) && !ReservedType(t) && Whole(lb, l)
    ensures ReadRun([], tb + lb) == Classify(PayloadStatus(t, l, []), tb + lb)
  {
    TypeRun(tb, t);
    ReadRunConcat([], tb, lb);
    HeaderQuiet(tb, t, lb, l);
    ReadRunQuiet(tb, lb);
    StatusHeader(tb, t, lb, l);
  }

  /** A DATA frame is announced by its header; the payload stays in the stream. */
  lemma DataFrameRun(len: varint, rest: seq<byte>)
    ensures ReadRun([], S.DataHeader(len) + rest) == Output(Data(len), rest)
  {
    WholeVarint(DATA);
    WholeVarint(len);
    HeaderRun(EncodeVarint(DATA), DATA, EncodeVarint(len), len);
    ReadRunConcat([], S.DataHeader(len), rest);
    assert [] + rest == rest;
  }

  /** Reading the payload of a frame that is buffered. */
  lemma PayloadRun(tb: seq<byte>, t: nat, lb: seq<byte>, p: seq<byte>)
    requires Whole(tb, t) && !ReservedType(t) && Whole(lb, |p|) && p != []
    requires KnownType(t) && t != DATA && |p| <= MaxFrameData(t)
    ensures ReadRun(tb + lb, p) == Classify(DecodePayload(t, p), tb + lb + p)
  {
    PayloadQuiet(tb, t, lb, |p|, [], p);
    assert tb + lb + [] == tb + lb;
    ReadRunQuiet(tb + lb, p);
    StatusPayload(tb, t, lb, |p|, p);
    assert p[..|p|] == p;
  }

  lemma WholeFrameRun(tb: seq<byte>, t: nat, lb: seq<byte>, p: seq<byte>)
    requires Whole(tb, t) && !ReservedType(t) && Whole(lb, |p|) && p != []
    requires KnownType(t) && t != DATA
    ensures ReadRun([], tb + lb + p)
         == if |p| <= MaxFrameData(t) then Classify(DecodePayload(t, p), tb + lb + p) else Stopped(HttpExcessiveLoad, p)
  {
    HeaderRun(tb, t, lb, |p|);
    ReadRunConcat([], tb + lb, p);
    if |p| <= MaxFrameData(t) {
      PayloadRun(tb, t, lb, p);
    } else {
      assert [] + p == p;
    }
  }

  /** A HEADERS frame comes out with its header block, up to a certain size. */
  lemma HeadersFrameRun(block: S.Payload)
    requires block != []
    ensures ReadRun([], S.HeadersHeader(|block|) + block)
         == if |block| <= MAX_HEADER_BYTES then Output(HeadersFrame(block), []) else Stopped(HttpExcessiveLoad, block)
  {
    WholeVarint(HEADERS);
    WholeVarint(|block|);
    WholeFrameRun(EncodeVarint(HEADERS), HEADERS, EncodeVarint(|block|), block);
  }

  lemma SkippedRun(tb: seq<byte>, t: nat, lb: seq<byte>, p: seq<byte>)
    requires Whole(tb, t) && !ReservedType(t) && !KnownType(t) && Whole(lb, |p|)
    ensures ReadRun([], tb + lb + p) == Reading([])
  {
    HeaderRun(tb, t, lb, |p|);
    ReadRunConcat([], tb + lb, p);
    if p != [] {
      PayloadQuiet(tb, t, lb, |p|, [], p);
      assert tb + lb + [] == tb + lb;
      ReadRunQuiet(tb + lb, p);
      StatusPayload(tb, t, lb, |p|, p);
    }
  }

  /** Between two frames, a frame of an unknown type changes nothing, whatever its payload. */
  lemma UnknownFrameIgnored(cfg: Config, m: Message, t: varint, p: S.Payload)
    requires !ReservedType(t) && !KnownType(t) && m.at.Between? && m.at.got == []
    ensures Run(cfg, m, EncodeVarint(t) + EncodeVarint(|p|) + p) == m
  {
    WholeVarint(t);
    WholeVarint(|p|);
    SkippedRun(EncodeVarint(t), t, EncodeVarint(|p|), p);
    RunFrames(cfg, m, EncodeVarint(t) + EncodeVarint(|p|) + p);
  }

  // ----- Whole messages -----

  /** QPACK returns what was encoded, and the block is not too large for the receiver. */
  ghost predicate Deliverable(cfg: Config, f: S.SentFrame) {
    f.SentHeaders? ==>
      && f.block != [] && |f.block| <= MAX_HEADER_BYTES
      && cfg.decode(f.block) == Some(f.headers) && !IsExtendedConnect(cfg.mt, f.headers)
  }

  ghost predicate AllDeliverable(cfg: Config, log: seq<S.SentFrame>) {
    forall i :: 0 <= i < |log| ==> Deliverable(cfg, log[i])
  }

  /** The header sections that the receiver's application gets: all but the trailers. */
  ghost function LogSections(mt: MessageType, log: seq<S.SentFrame>): seq<Section>
    decreases |log|
  {
    if log == [] then []
    else
      var before, f := log[..|log| - 1], log[|log| - 1];
      if f.SentHeaders? && S.LogState(mt, before, S.WaitingForHeaders) && Checked(mt, f.headers).Some?
      then LogSections(mt, before) + [Checked(mt, f.headers).value]
      else LogSections(mt, before)
  }

  function PhaseAfter(s: S.MessageState): Phase {
    match s
    case WaitingForHeaders => WaitHeaders
    case WaitingForData => WaitData
    case _ => WaitFin
  }

  ghost function Expected(mt: MessageType, log: seq<S.SentFrame>, s: S.MessageState): Message {
    Message(Between(PhaseAfter(s), []), LogSections(mt, log), S.LogBody(log))
  }

  /** A DATA frame adds its payload to the body. */
  lemma DataReceived(cfg: Config, m: Message, payload: S.Payload)
    requires m.at == Between(WaitData, [])
    ensures Run(cfg, m, S.FrameBytes(S.SentData(payload))) == m.(body := m.body + payload)
  {
    DataFrameRun(|payload|, payload);
    RunFrames(cfg, m, S.FrameBytes(S.SentData(payload)));
    if payload != [] {
      RunBody(cfg, m.(at := InBody(|payload|)), payload);
    } else {
      assert m.body + payload == m.body;
    }
  }

  lemma HeadersReceived(cfg: Config, m: Message, f: S.SentFrame)
    requires m.at.Between? && m.at.got == [] && f.SentHeaders? && Deliverable(cfg, f)
    ensures Run(cfg, m, S.FrameBytes(f)) == OnFrame(cfg, m, m.at.phase, HeadersFrame(f.block))
  {
    HeadersFrameRun(f.block);
    RunFrames(cfg, m, S.FrameBytes(f));
  }

  /** The first header sections. */
  lemma SectionReceived(cfg: Config, m: Message, f: S.SentFrame, s: S.MessageState)
    requires m.at == Between(WaitHeaders, []) && f.SentHeaders? && Deliverable(cfg, f) && WellFormed(f.headers, cfg.mt)
    requires s == S.WaitingForHeaders ==> cfg.mt == Response && IsInterim(f.headers) == Some(true)
    requires s == S.WaitingForData ==> cfg.mt == Request || IsInterim(f.headers) == Some(false)
    requires s == S.WaitingForHeaders || s == S.WaitingForData
    ensures Checked(cfg.mt, f.headers).Some?
    ensures Run(cfg, m, S.FrameBytes(f))
         == Message(Between(PhaseAfter(s), []), m.sections + [Checked(cfg.mt, f.headers).value], m.body)
  {
    HeadersReceived(cfg, m, f);
  }

  /** The status of a response decides on both sides: with 1xx, other than 101, more header sections follow;
      from 200 to 599, the body does. */
  lemma StatusReceived(cfg: Config, m: Message, f: S.SentFrame, a: char, b: char, c: char)
    requires m.at == Between(WaitHeaders, []) && cfg.mt == Response
    requires '1' <= a <= '5' && '0' <= b <= '9' && '0' <= c <= '9'
    requires f.SentHeaders? && Deliverable(cfg, f) && WellFormed(f.headers, Response)
    requires f.headers[0] == Header(":status", [a, b, c])
    ensures [a, b, c] == "101" ==>
              && S.NextState(Response, S.WaitingForHeaders, f.headers) == None
              && Run(cfg, m, S.FrameBytes(f)) == m.(at := Failed(InvalidHeader))
    ensures a == '1' && [a, b, c] != "101" ==>
              && S.NextState(Response, S.WaitingForHeaders, f.headers) == Some(S.WaitingForHeaders)
              && Run(cfg, m, S.FrameBytes(f)).at == Between(WaitHeaders, [])
    ensures a != '1' ==>
              && S.NextState(Response, S.WaitingForHeaders, f.headers) == Some(S.WaitingForData)
              && Run(cfg, m, S.FrameBytes(f)).at == Between(WaitData, [])
  {
    ThreeDigits(f.headers, a, b, c);
    if [a, b, c] == "101" {
      HeadersReceived(cfg, m, f);
    } else {
      SectionReceived(cfg, m, f, if a == '1' then S.WaitingForHeaders else S.WaitingForData);
    }
  }

  /** A response without `host` and `te` fields reaches the application as the very list that was sent. */
  lemma SameListReceived(cfg: Config, m: Message, f: S.SentFrame)
    requires m.at == Between(WaitHeaders, []) && cfg.mt == Response
    requires f.SentHeaders? && Deliverable(cfg, f) && WellFormed(f.headers, Response) && IsInterim(f.headers).Some?
    requires !Has(f.headers, "host") && !Has(f.headers, "te")
    ensures Run(cfg, m, S.FrameBytes(f)).sections
         == m.sections + [Section(f.headers, IsInterim(f.headers).value, false)]
  {
    SectionReceived(cfg, m, f, if IsInterim(f.headers).value then S.WaitingForHeaders else S.WaitingForData);
    AllRetained(f.headers);
  }

  /** Any other one loses exactly these fields: the list is the one that would come without them. */
  lemma ShorterListReceived(cfg: Config, m: Message, f: S.SentFrame, a: seq<Header>, h: Header, b: seq<Header>)
    requires m.at == Between(WaitHeaders, []) && cfg.mt == Response
    requires f.SentHeaders? && Deliverable(cfg, f) && WellFormed(f.headers, Response) && IsInterim(f.headers).Some?
    requires f.headers == a + [h] + b && (h.name == "host" || h.name == "te")
    ensures Run(cfg, m, S.FrameBytes(f)).sections
         == m.sections + [Section(Retained(a + b), IsInterim(f.headers).value, false)]
  {
    SectionReceived(cfg, m, f, if IsInterim(f.headers).value then S.WaitingForHeaders else S.WaitingForData);
    OneDropped(a, h, b);
  }

  lemma TrailersReceived(cfg: Config, m: Message, f: S.SentFrame)
    requires m.at == Between(WaitData, []) && f.SentHeaders? && Deliverable(cfg, f)
    ensures Run(cfg, m, S.FrameBytes(f)) == m.(at := Between(WaitFin, []))
  {
    HeadersReceived(cfg, m, f);
  }

  lemma NotBoth(mt: MessageType, log: seq<S.SentFrame>)
    requires S.LogState(mt, log, S.WaitingForData)
    ensures !S.LogState(mt, log, S.WaitingForHeaders)
  {
  }

  /** One more frame behind a log that was received as it was meant. */
  lemma DataAppended(cfg: Config, log: seq<S.SentFrame>, f: S.SentFrame)
    requires f.SentData? && S.LogState(cfg.mt, log, S.WaitingForData)
    requires Run(cfg, Start, S.LogBytes(log)) == Expected(cfg.mt, log, S.WaitingForData)
    ensures Run(cfg, Start, S.LogBytes(log + [f])) == Expected(cfg.mt, log + [f], S.WaitingForData)
  {
    RunConcat(cfg, Start, S.LogBytes(log), S.FrameBytes(f));
    DataReceived(cfg, Expected(cfg.mt, log, S.WaitingForData), f.payload);
  }

  lemma TrailersAppended(cfg: Config, log: seq<S.SentFrame>, f: S.SentFrame)
    requires f.SentHeaders? && Deliverable(cfg, f) && S.LogState(cfg.mt, log, S.WaitingForData)
    requires Run(cfg, Start, S.LogBytes(log)) == Expected(cfg.mt, log, S.WaitingForData)
    ensures Run(cfg, Start, S.LogBytes(log + [f])) == Expected(cfg.mt, log + [f], S.TrailersSet)
  {
    RunConcat(cfg, Start, S.LogBytes(log), S.FrameBytes(f));
    NotBoth(cfg.mt, log);
    TrailersReceived(cfg, Expected(cfg.mt, log, S.WaitingForData), f);
    assert S.LogBody(log) + [] == S.LogBody(log);
  }

  lemma SectionAppended(cfg: Config, log: seq<S.SentFrame>, f: S.SentFrame, s: S.MessageState)
    requires f.SentHeaders? && Deliverable(cfg, f) && s != S.TrailersSet && S.LogState(cfg.mt, log + [f], s)
    requires S.LogState(cfg.mt, log, S.WaitingForHeaders)
    requires Run(cfg, Start, S.LogBytes(log)) == Expected(cfg.mt, log, S.WaitingForHeaders)
    ensures Run(cfg, Start, S.LogBytes(log + [f])) == Expected(cfg.mt, log + [f], s)
  {
    RunConcat(cfg, Start, S.LogBytes(log), S.FrameBytes(f));
    SectionReceived(cfg, Expected(cfg.mt, log, S.WaitingForHeaders), f, s);
    assert S.LogBody(log) + [] == S.LogBody(log);
  }

  /** What can have come before the last frame. */
  lemma LastFrame(mt: MessageType, before: seq<S.SentFrame>, f: S.SentFrame, log: seq<S.SentFrame>, s: S.MessageState)
    requires log != [] && before == log[..|log| - 1] && f == log[|log| - 1] && S.LogState(mt, log, s)
    ensures log == before + [f]
    ensures if f.SentData? then s == S.WaitingForData && S.LogState(mt, before, S.WaitingForData)
            else S.LogState(mt, before, if s == S.TrailersSet then S.WaitingForData else S.WaitingForHeaders)
  {
  }

  /** Everything that a sender can have queued is received as it was meant. */
  lemma {:induction false} LogReceived(cfg: Config, log: seq<S.SentFrame>, s: S.MessageState)
    requires S.LogState(cfg.mt, log, s) && AllDeliverable(cfg, log)
    ensures Run(cfg, Start, S.LogBytes(log)) == Expected(cfg.mt, log, s)
    decreases |log|
  {
    if log != [] {
      var before, f := log[..|log| - 1], log[|log| - 1];
      LastFrame(cfg.mt, before, f, log, s);
      assert Deliverable(cfg, f);
      if f.SentData? {
        LogReceived(cfg, before, S.WaitingForData);
        DataAppended(cfg, before, f);
      } else if s == S.TrailersSet {
        LogReceived(cfg, before, S.WaitingForData);
        TrailersAppended(cfg, before, f);
      } else {
        LogReceived(cfg, before, S.WaitingForHeaders);
        SectionAppended(cfg, before, f, s);
      }
    }
  }

  /** So a receiver that has read a part of it has seen no error, and has a part of the message. */
  lemma PrefixReceived(cfg: Config, log: seq<S.SentFrame>, s: S.MessageState, part: seq<byte>)
    requires S.LogState(cfg.mt, log, s) && AllDeliverable(cfg, log) && part <= S.LogBytes(log)
    ensures var m := Run(cfg, Start, part);
            && !m.at.Failed? && !m.at.Extended?
            && m.body <= S.LogBody(log) && m.sections <= LogSections(cfg.mt, log)
  {
    var rest := S.LogBytes(log)[|part|..];
    assert part + rest == S.LogBytes(log);
    var m := Run(cfg, Start, part);
    RunConcat(cfg, Start, part, rest);
    LogReceived(cfg, log, s);
    RunGrows(cfg, m, rest);
    if m.at.Failed? || m.at.Extended? {
      RunStuck(cfg, m, rest);
    }
  }

  /** A receiver that starts behind the type of the first frame is where one that has read it would be. */
  lemma FirstTypeRun(cfg: Config, t: varint)
    requires !ReservedType(t)
    ensures Run(cfg, Start, EncodeVarint(t)) == AfterType(t)
  {
    WholeVarint(t);
    TypeRun(EncodeVarint(t), t);
    RunFrames(cfg, Start, EncodeVarint(t));
  }

  // ----- Every run of the two ends -----

  /** What has arrived is a part of what was sent, and all of it when the end has arrived. */
  ghost predicate Arrived(tx: SendEnd, rx: RecvEnd)
    reads tx, rx
  {
    && rx.Valid() && rx.consumed + rx.avail <= tx.sent
    && (rx.finArrived ==> tx.closed && rx.consumed + rx.avail == tx.sent)
  }

  ghost predicate SenderState(mt: MessageType, log: seq<S.SentFrame>, s: S.MessageState) {
    if s == S.Done then S.LogState(mt, log, S.WaitingForData) || S.LogState(mt, log, S.TrailersSet)
    else S.LogState(mt, log, s)
  }

  lemma PartReceived(cfg: Config, log: seq<S.SentFrame>, s: S.MessageState, part: seq<byte>)
    requires SenderState(cfg.mt, log, s) && AllDeliverable(cfg, log) && part <= S.LogBytes(log)
    ensures var m := Run(cfg, Start, part);
            && !m.at.Failed? && !m.at.Extended?
            && m.body <= S.LogBody(log) && m.sections <= LogSections(cfg.mt, log)
  {
    if s != S.Done {
      PrefixReceived(cfg, log, s, part);
    } else if S.LogState(cfg.mt, log, S.TrailersSet) {
      PrefixReceived(cfg, log, S.TrailersSet, part);
    } else {
      PrefixReceived(cfg, log, S.WaitingForData, part);
    }
  }

  lemma WholeReceived(cfg: Config, log: seq<S.SentFrame>, s: S.MessageState, all: seq<byte>)
    requires SenderState(cfg.mt, log, s) && AllDeliverable(cfg, log) && all == S.LogBytes(log) && s == S.Done
    ensures var m := Run(cfg, Start, all);
            EndError(m) == None && m.body == S.LogBody(log) && m.sections == LogSections(cfg.mt, log)
  {
    LogReceived(cfg, log, if S.LogState(cfg.mt, log, S.TrailersSet) then S.TrailersSet else S.WaitingForData);
  }

  /** What a receiver of a sender's bytes has: a part of the message, and with the end all of it. */
  lemma Delivered(cfg: Config, log: seq<S.SentFrame>, s: S.MessageState, part: seq<byte>, fin: bool)
    requires SenderState(cfg.mt, log, s) && AllDeliverable(cfg, log) && part <= S.LogBytes(log)
    requires fin ==> s == S.Done && part == S.LogBytes(log)
    ensures var m := Run(cfg, Start, part);
            && !m.at.Failed? && !m.at.Extended?
            && m.body <= S.LogBody(log) && m.sections <= LogSections(cfg.mt, log)
            && (fin ==> m.body == S.LogBody(log) && m.sections == LogSections(cfg.mt, log))
  {
    PartReceived(cfg, log, s, part);
    if fin {
      WholeReceived(cfg, log, s, part);
    }
  }

  /** A receiver of a sender's bytes is never due an error. */
  lemma NeverFails(cfg: Config, log: seq<S.SentFrame>, s: S.MessageState, part: seq<byte>, fin: bool, e: FrameError)
    requires SenderState(cfg.mt, log, s) && AllDeliverable(cfg, log) && part <= S.LogBytes(log)
    requires fin ==> s == S.Done && part == S.LogBytes(log)
    ensures !Fails(Run(cfg, Start, part), e, fin)
  {
    PartReceived(cfg, log, s, part);
    if fin {
      WholeReceived(cfg, log, s, part);
    }
  }

  /** A header section is sent, at least the type of its frame. */
  method SendFirst(s: S.SendMessage, tx: SendEnd, headers: seq<Header>, block: S.Payload, room: nat)
    requires s.Valid(tx) && s.log == [] && tx.sent == [] && !tx.closed && !tx.gone && room > 0
    requires s.state == S.WaitingForHeaders && S.NextState(s.mt, s.state, headers).Some? && WellFormed(headers, s.mt)
    modifies s, s.stream, tx
    ensures s.Valid(tx) && s.log == [S.SentHeaders(headers, block)] && EncodeVarint(HEADERS) <= tx.sent
  {
    var queued := s.SendHeaders(headers, block, tx);
    SendType(s, tx, S.SentHeaders(headers, block), room);
  }

  method SendType(s: S.SendMessage, tx: SendEnd, ghost f: S.SentFrame, room: nat)
    requires s.Valid(tx) && s.log == [f] && f.SentHeaders? && tx.sent == [] && !tx.gone && room > 0
    modifies s, s.stream, tx
    ensures s.Valid(tx) && s.log == [f] && EncodeVarint(HEADERS) <= tx.sent
  {
    tx.Allow(room);
    TypeIsFirst(s.View(tx), f, room);
    var sent := s.Send(tx);
  }

  lemma TypeIsFirst(v: S.SendView, f: S.SentFrame, room: nat)
    requires f.SentHeaders? && v.sent + v.pending == S.LogBytes([f]) && v.sent == [] && room > 0
    ensures EncodeVarint(HEADERS) <= S.Served(v, room).sent
  {
    S.LogAppend([], f);
    assert [] + [f] == [f];
    assert v.pending == v.sent + v.pending == [] + S.FrameBytes(f) == S.FrameBytes(f);
    assert v.pending[0] == EncodeVarint(HEADERS)[0];
  }

  /** The type of a first frame arrives and is read. */
  method TakeType(rx: RecvEnd)
    requires rx.Valid() && rx.consumed == [] && rx.avail == [] && !rx.finArrived
    modifies rx
    ensures rx.Valid() && rx.consumed == EncodeVarint(HEADERS) && rx.avail == [] && !rx.finArrived && !rx.finRead
  {
    rx.Arrive(EncodeVarint(HEADERS), false);
    var head := rx.Recv(1);
  }

  /** The two ends of one stream. `read` is what the receiving application has been given. */
  class Link {
    const sender: S.SendMessage
    const tx: SendEnd
    const rx: RecvEnd
    const receiver: RecvMessage
    ghost var read: seq<byte>

    ghost predicate SenderOk()
      reads this, sender, sender.stream, tx
    {
      sender.Valid(tx) && receiver.cfg.mt == sender.mt && AllDeliverable(receiver.cfg, sender.log)
    }

    ghost predicate ReceiverOk()
      reads this, receiver, receiver.reader, receiver.reader.state.Object(), rx
    {
      && receiver.Valid() && rx.finRead == receiver.ended
      && receiver.reader.state.Object() != rx
      && receiver.Now() == Run(receiver.cfg, Start, rx.consumed) && receiver.Now().body == read
    }

    ghost predicate Apart()
      reads this, receiver, receiver.reader
    {
      var o := receiver.reader.state.Object();
      o != tx && o != sender && o != sender.stream && o != this
    }

    ghost predicate Valid()
      reads this, sender, sender.stream, tx, rx, receiver, receiver.reader, receiver.reader.state.Object()
    {
      Apart() && SenderOk() && ReceiverOk() && Arrived(tx, rx)
    }

    /** Put two ends together. */
    constructor (s: S.SendMessage, t: SendEnd, r: RecvEnd, m: RecvMessage)
      requires s.Valid(t) && m.cfg.mt == s.mt && AllDeliverable(m.cfg, s.log) && Arrived(t, r)
      requires m.Valid() && m.reader.state.Object() !in {s, s.stream, t, r}
      requires r.finRead == m.ended && m.Now() == Run(m.cfg, Start, r.consumed)
      ensures Valid() && read == m.Now().body && sender == s && tx == t && rx == r && receiver == m
    {
      sender, tx, rx, receiver, read := s, t, r, m, m.Now().body;
      new;
      assert unchanged(m) && unchanged(m.reader) && unchanged(m.reader.state.Object());
      assert m.Valid() && s.Valid(t) && Arrived(t, r);
    }

    /** A new stream. */
    static method Open(cfg: Config) returns (l: Link)
      ensures l.Valid() && l.read == [] && l.sender.log == [] && l.receiver.cfg == cfg
    {
      var t := new SendEnd();
      var r := new RecvEnd();
      var s := new S.SendMessage(cfg.mt, t);
      var m := new RecvMessage(cfg);
      l := new Link(s, t, r, m);
    }

    /** At a server the receiver is created when the type of the first frame has arrived and was read. */
    static method OpenAtServer(cfg: Config, headers: seq<Header>, block: S.Payload, room: nat) returns (l: Link)
      requires WellFormed(headers, cfg.mt) && S.NextState(cfg.mt, S.WaitingForHeaders, headers).Some? && room > 0
      requires Deliverable(cfg, S.SentHeaders(headers, block))
      ensures l.Valid() && l.read == [] && l.sender.log == [S.SentHeaders(headers, block)] && l.receiver.cfg == cfg
      ensures l.rx.consumed == EncodeVarint(HEADERS) && l.rx.avail == [] && l.receiver.Now() == AfterType(HEADERS)
    {
      var t := new SendEnd();
      var r := new RecvEnd();
      var s := new S.SendMessage(cfg.mt, t);
      SendFirst(s, t, headers, block, room);
      TakeType(r);
      var m := RecvMessage.WithFirstFrameType(cfg, HEADERS);
      FirstTypeRun(cfg, HEADERS);
      l := new Link(s, t, r, m);
    }

    /** The state of the link says it all: the receiver is not in error and holds a part of the message;
        once it is closed, it is the whole message. */
    lemma Correct()
      requires Valid()
      ensures !receiver.Now().at.Failed? && !receiver.Now().at.Extended?
      ensures read <= S.LogBody(sender.log)
      ensures receiver.Now().sections <= LogSections(sender.mt, sender.log)
      ensures Closing(receiver.state) ==>
                && read == S.LogBody(sender.log) && receiver.Now().sections == LogSections(sender.mt, sender.log)
                && sender.state == S.Done
    {
      EndRead();
      Holds();
    }

    lemma EndRead()
      requires ReceiverOk()
      ensures Closing(receiver.state) ==> rx.finRead
    {
    }

    /** What the receiver has read is a part of the message, and all of it with the end. */
    lemma Holds()
      requires SenderOk() && Arrived(tx, rx) && receiver.Now() == Run(receiver.cfg, Start, rx.consumed)
      ensures !receiver.Now().at.Failed? && !receiver.Now().at.Extended?
      ensures receiver.Now().body <= S.LogBody(sender.log)
      ensures receiver.Now().sections <= LogSections(sender.mt, sender.log)
      ensures rx.finRead ==>
                && receiver.Now().body == S.LogBody(sender.log)
                && receiver.Now().sections == LogSections(sender.mt, sender.log)
                && sender.state == S.Done
    {
      AllArrived();
      Delivered(receiver.cfg, sender.log, sender.state, rx.consumed, rx.finRead);
    }

    lemma AllArrived()
      requires SenderOk() && Arrived(tx, rx)
      ensures rx.consumed <= S.LogBytes(sender.log) && SenderState(receiver.cfg.mt, sender.log, sender.state)
      ensures rx.finRead ==> rx.consumed == S.LogBytes(sender.log) && sender.state == S.Done
    {
    }

    method SendHeaders(headers: seq<Header>, block: S.Payload) returns (r: S.Res<()>)
      requires Valid() && (sender.state == S.WaitingForHeaders ==> WellFormed(headers, sender.mt))
      requires Deliverable(receiver.cfg, S.SentHeaders(headers, block))
      modifies sender, sender.stream
      ensures Valid()
      ensures sender.log == if r.Ok? then old(sender.log) + [S.SentHeaders(headers, block)] else old(sender.log)
      ensures match S.HeadersQueued(sender.mt, old(sender.View(tx)), headers, S.FrameBytes(S.SentHeaders(headers, block)))
              case Some(v) => r.Ok? && sender.View(tx) == v
              case None => r.Err? && sender.View(tx) == old(sender.View(tx))
    {
      r := sender.SendHeaders(headers, block, tx);
      assert unchanged(receiver) && unchanged(receiver.reader) && unchanged(receiver.reader.state.Object());
      assert receiver.Valid();
    }

    method SendData(data: S.Payload) returns (r: S.Res<nat>)
      requires Valid()
      modifies sender, sender.stream, tx
      ensures Valid()
      ensures r == S.DataTaken(old(sender.View(tx)), old(tx.Space()), data)
      ensures sender.View(tx) == S.DataWritten(old(sender.View(tx)), old(tx.Space()), data)
      ensures r.Ok? ==> r.value <= |data| && S.LogBody(sender.log) == S.LogBody(old(sender.log)) + data[..r.value]
    {
      r := PutData(data);
      assert unchanged(receiver) && unchanged(receiver.reader) && unchanged(receiver.reader.state.Object());
      assert receiver.Valid();
    }

    method PutData(data: S.Payload) returns (r: S.Res<nat>)
      requires SenderOk() && Arrived(tx, rx)
      modifies sender, sender.stream, tx
      ensures SenderOk() && Arrived(tx, rx)
      ensures r == S.DataTaken(old(sender.View(tx)), old(tx.Space()), data)
      ensures sender.View(tx) == S.DataWritten(old(sender.View(tx)), old(tx.Space()), data)
      ensures r.Ok? ==> r.value <= |data| && S.LogBody(sender.log) == S.LogBody(old(sender.log)) + data[..r.value]
    {
      r := sender.SendData(tx, data);
    }

    method Send() returns (r: S.Res<()>)
      requires Valid()
      modifies sender, sender.stream, tx
      ensures Valid() && sender.log == old(sender.log)
      ensures r.Err? <==> S.Fails(old(sender.View(tx)), tx.Space())
      ensures sender.View(tx) == S.ServedBy(old(sender.View(tx)), old(tx.Space()))
    {
      r := sender.Send(tx);
      assert unchanged(receiver) && unchanged(receiver.reader) && unchanged(receiver.reader.state.Object());
      assert receiver.Valid();
    }

    method Close() returns (r: S.Res<()>)
      requires Valid()
      modifies sender, tx
      ensures Valid() && sender.log == old(sender.log)
      ensures r.Ok? <==> (old(sender.state) == S.WaitingForData || old(sender.state) == S.TrailersSet)
                         && (tx.gone ==> sender.HasDataToSend())
      ensures sender.View(tx) == S.Ended(old(sender.View(tx)), tx.gone)
    {
      r := sender.Close(tx);
      assert unchanged(receiver) && unchanged(receiver.reader) && unchanged(receiver.reader.state.Object());
      assert receiver.Valid();
    }

    /** The transport has room for this many bytes. */
    method Allow(n: nat)
      requires Valid()
      modifies tx
      ensures Valid() && sender.log == old(sender.log) && tx.avail == n
    {
      tx.Allow(n);
      assert unchanged(receiver) && unchanged(receiver.reader) && unchanged(receiver.reader.state.Object());
      assert receiver.Valid();
    }

    /** The sender's transport removes the stream. */
    method Lose()
      requires Valid()
      modifies tx
      ensures Valid() && sender.log == old(sender.log) && tx.gone
    {
      tx.Remove();
      assert unchanged(receiver) && unchanged(receiver.reader) && unchanged(receiver.reader.state.Object());
      assert receiver.Valid();
    }

    /** The transport delivers more of what was sent, and perhaps the end. */
    method Carry(data: seq<byte>, fin: bool)
      requires Valid() && !rx.finArrived
      requires rx.consumed + (rx.avail + data) <= tx.sent
      requires fin ==> tx.closed && rx.consumed + (rx.avail + data) == tx.sent
      modifies rx
      ensures Valid() && read == old(read) && rx.avail == old(rx.avail) + data && rx.finArrived == fin
    {
      rx.Arrive(data, fin);
      assert unchanged(receiver) && unchanged(receiver.reader) && unchanged(receiver.reader.state.Object());
      assert receiver.Valid();
    }

    /** The receiver reads frames: never an error. */
    method Receive(blocked: seq<byte> -> bool) returns (r: Res<bool>)
      requires Valid() && !Closing(receiver.state)
      modifies receiver, receiver.reader, receiver.reader.state.Object(), rx
      ensures Valid() && r.Ok? && receiver.Settled(rx, blocked) && rx.finArrived == old(rx.finArrived)
    {
      r := TryReceive(blocked);
      if r.Err? {
        AllArrived();
        NeverFails(receiver.cfg, sender.log, sender.state, rx.consumed, rx.finRead, r.error);
      }
    }

    method TryReceive(blocked: seq<byte> -> bool) returns (r: Res<bool>)
      requires Valid() && !Closing(receiver.state)
      modifies receiver, receiver.reader, receiver.reader.state.Object(), rx
      ensures SenderOk() && Arrived(tx, rx) && rx.finArrived == old(rx.finArrived)
      ensures r.Ok? ==> Valid() && receiver.Settled(rx, blocked)
      ensures r.Err? ==> Fails(Run(receiver.cfg, Start, rx.consumed), r.error, rx.finRead)
    {
      ghost var c;
      r, c := ReadFrames(blocked);
      assert unchanged(sender) && unchanged(sender.stream) && unchanged(tx);
      assert SenderOk();
      ConcatAssoc(old(rx.consumed), c, rx.avail);
    }

    /** The receiver's part. */
    method ReadFrames(blocked: seq<byte> -> bool) returns (r: Res<bool>, ghost c: seq<byte>)
      requires ReceiverOk() && rx.Valid() && !Closing(receiver.state)
      modifies receiver, receiver.reader, receiver.reader.state.Object(), rx
      ensures rx.Read(c)
      ensures r.Ok? ==> ReceiverOk() && receiver.Settled(rx, blocked)
      ensures r.Err? ==> Fails(Run(receiver.cfg, Start, rx.consumed), r.error, rx.finRead)
      ensures var o := receiver.reader.state.Object(); o == old(receiver.reader.state.Object()) || fresh(o)
    {
      r, c := receiver.Receive(rx, blocked);
      RunConcat(receiver.cfg, Start, old(rx.consumed), c);
    }

    /** The receiving application reads, with a buffer of any size: never an error, the next bytes of the
        body, and the end only when it has everything. If everything has arrived, a buffer that is not filled
        means the end. */
    method Read(buf: array<byte>, blocked: seq<byte> -> bool) returns (r: Res<(nat, bool)>)
      requires Valid() && receiver.Apart(buf)
      modifies this`read, receiver, rx, buf
      ensures Valid() && r.Ok? && r.value.0 <= buf.Length && read == old(read) + buf[..r.value.0]
      ensures rx.finArrived == old(rx.finArrived)
      ensures old(receiver.state.ReadingData?) && rx.finArrived ==>
                r.value.1 || (r.value.0 == buf.Length && receiver.state.ReadingData?)
      ensures old(receiver.state.ClosePending?) ==> r.value.1
      ensures r.value.1 ==> old(!receiver.state.Closed?) && receiver.state.Closed?
      ensures r.value.1 ==> read == S.LogBody(sender.log) && sender.state == S.Done
    {
      ghost var c, data;
      r, c, data := receiver.ReadData(rx, buf, blocked);
      RunConcat(receiver.cfg, Start, old(rx.consumed), c);
      ConcatAssoc(old(rx.consumed), c, rx.avail);
      AllArrived();
      if r.Err? {
        NeverFails(receiver.cfg, sender.log, sender.state, rx.consumed, rx.finRead, r.error);
      } else {
        assert buf[0..r.value.0] == buf[..r.value.0];
        read := read + data;
        if r.value.1 {
          WholeReceived(receiver.cfg, sender.log, sender.state, rx.consumed);
        }
      }
    }

    /** Go on to the body when everything has arrived. */
    method ReceiveHeaders()
      requires Valid() && rx.finArrived
      modifies receiver, receiver.reader, receiver.reader.state.Object(), rx
      ensures Valid() && rx.finArrived && (Readable(receiver.state) || receiver.state.Closed?)
      ensures |read| <= |S.LogBody(sender.log)|
    {
      if !Closing(receiver.state) {
        var settled := Receive(_ => false);
      }
      Correct();
    }

    /** One more read when everything has arrived. */
    method ReadMore(size: nat)
      requires Valid() && rx.finArrived && Readable(receiver.state) && size > 0
      modifies this`read, receiver, rx
      ensures Valid() && rx.finArrived && (receiver.state.Closed? || receiver.state.ReadingData?)
      ensures |old(read)| <= |read| <= |S.LogBody(sender.log)| && (receiver.state.ReadingData? ==> |old(read)| < |read|)
    {
      var buf := new byte[size];
      assert unchanged(receiver) && unchanged(receiver.reader) && unchanged(receiver.reader.state.Object());
      assert receiver.Valid();
      var got := Read(buf, _ => false);
      Correct();
    }

    /** Once everything has arrived, and no header block has to wait, an application that goes on reading gets
        all of the message and its end. */
    method Finish(size: nat)
      requires Valid() && rx.finArrived && size > 0
      modifies this`read, receiver, receiver.reader, receiver.reader.state.Object(), rx
      ensures Valid() && receiver.state.Closed? && read == S.LogBody(sender.log)
      ensures receiver.sections == LogSections(sender.mt, sender.log)
    {
      ReceiveHeaders();
      while !receiver.state.Closed?
        invariant Valid() && rx.finArrived && (Readable(receiver.state) || receiver.state.Closed?)
        invariant |read| <= |S.LogBody(sender.log)|
        decreases |S.LogBody(sender.log)| - |read|, !receiver.state.Closed?
      {
        ReadMore(size);
      }
      Correct();
    }
  }
}
