/** Which streams of frames a receiver takes for a message (section 4.1 of RFC 9114), said without the receiver's
    states: informational header sections and a final one, then data, then at most one section of trailers, with
    frames of unknown types anywhere.
 */
module Grammar {
  import opened Bits
  import opened Varint
  import opened Frames
  import opened FrameReaders
  import opened Headers
  import opened Messages
  import opened Pipeline
  import Settings
  import S = SendMessages

  /** A frame on a message stream; `Other` has any type but the first two. */
  datatype WireFrame =
    | WireHeaders(block: S.Payload)
    | WireData(payload: S.Payload)
    | Other(frameType: varint, payload: S.Payload)

  ghost predicate Typed(f: WireFrame) {
    f.Other? ==> f.frameType > 1
  }

  ghost function WireBytes(f: WireFrame): seq<byte> {
    match f
    case WireHeaders(block) => EncodeVarint(1) + EncodeVarint(|block|) + block
    case WireData(payload) => EncodeVarint(0) + EncodeVarint(|payload|) + payload
    case Other(t, payload) => EncodeVarint(t) + EncodeVarint(|payload|) + payload
  }

  ghost function StreamBytes(fs: seq<WireFrame>): seq<byte> {
    if fs == [] then [] else WireBytes(fs[0]) + StreamBytes(fs[1..])
  }

  // ----- Frames of other types -----

  /** What is wrong with a frame that is neither HEADERS nor DATA. */
  ghost function OtherError(mt: MessageType, t: varint, p: seq<byte>): Option<FrameError> {
    if t == 0x2 || t == 0x6 || t == 0x8 || t == 0x9 then Some(HttpFrameUnexpected)
    else if t == 0x5 then
      Some(if |p| > 393216 then HttpExcessiveLoad else if mt == Response then HttpId else HttpFrameUnexpected)
    else if t == 0x3 || t == 0xd then Some(if |p| > 8 then HttpExcessiveLoad else HttpFrameUnexpected)
    else if t == 0x7 then
      Some(if |p| > 8 then HttpExcessiveLoad else if !OneVarint(p) then HttpFrame else HttpFrameUnexpected)
    else if t == 0x4 then
      Some(if |p| > 4096 then HttpExcessiveLoad
           else match Settings.DecodeAll(p, [])
                case Ok(_) => HttpFrameUnexpected
                case Err(e) => if e == Settings.HttpSettings then FrameError.HttpSettings else HttpFrame)
    else if t == 0xf_0700 then
      Some(if |p| > 4096 then HttpExcessiveLoad
           else if ParseVarint(p).None? then HttpFrame
           else HttpFrameUnexpected)
    else if t == 0xf_0701 then Some(if |p| > 4096 then HttpExcessiveLoad else HttpFrameUnexpected)
    else None
  }

  ghost predicate OneVarint(p: seq<byte>) {
    ParseVarint(p).Some? && ParseVarint(p).value.size == |p|
  }

  /** Reading any frame that is buffered. */
  lemma KnownFrameRun(t: varint, p: S.Payload)
    requires KnownType(t) && t != DATA
    ensures ReadRun([], EncodeVarint(t) + EncodeVarint(|p|) + p)
         == if |p| > MaxFrameData(t) then Stopped(HttpExcessiveLoad, p)
            else Classify(DecodePayload(t, p), EncodeVarint(t) + EncodeVarint(|p|) + p)
  {
    WholeVarint(t);
    WholeVarint(|p|);
    FrameRun(EncodeVarint(t), t, EncodeVarint(|p|), p);
  }

  lemma FrameRun(tb: seq<byte>, t: nat, lb: seq<byte>, p: seq<byte>)
    requires Whole(tb, t) && !ReservedType(t) && Whole(lb, |p|) && KnownType(t) && t != DATA
    ensures ReadRun([], tb + lb + p)
         == if |p| > MaxFrameData(t) then Stopped(HttpExcessiveLoad, p) else Classify(DecodePayload(t, p), tb + lb + p)
  {
    if p == [] {
      EmptyFrameRun(tb, t, lb);
      assert tb + lb + p == tb + lb;
    } else {
      WholeFrameRun(tb, t, lb, p);
    }
  }

  lemma EmptyFrameRun(tb: seq<byte>, t: nat, lb: seq<byte>)
    requires Whole(tb, t) && !ReservedType(t) && Whole(lb, 0) && KnownType(t) && t != DATA
    ensures ReadRun([], tb + lb) == Classify(DecodePayload(t, []), tb + lb)
  {
    HeaderRun(tb, t, lb, 0);
  }

  lemma ReservedRun(t: varint, rest: seq<byte>)
    requires ReservedType(t)
    ensures ReadRun([], EncodeVarint(t) + rest) == Stopped(HttpFrameUnexpected, rest)
  {
    assert EncodeVarint(t) == [t];
    VarintRoundTrip(t, []);
    assert [t] + [] == [t] && ([t] + rest)[0] == t && ([t] + rest)[1..] == rest && [] + [t] == [t];
  }

  /** The table above is what comes out of the frame. */
  lemma OtherDecoded(cfg: Config, m: Message, phase: Phase, t: varint, p: seq<byte>)
    requires KnownType(t) && t > 1
    ensures |p| > MaxFrameData(t) ==> OtherError(cfg.mt, t, p) == Some(HttpExcessiveLoad)
    ensures |p| <= MaxFrameData(t) ==>
              && OtherError(cfg.mt, t, p).Some?
              && var e := OtherError(cfg.mt, t, p).value;
              && match DecodePayload(t, p)
                 case Bad(e') => e == e'
                 case Complete(f) => OnFrame(cfg, m, phase, f) == m.(at := Failed(e))
  {
  }

  /** A frame of another type stops the message with its error, or is as if it were not there. */
  lemma OtherReceived(cfg: Config, m: Message, t: varint, p: S.Payload)
    requires t > 1 && m.at.Between? && m.at.got == []
    ensures Run(cfg, m, WireBytes(Other(t, p)))
         == match OtherError(cfg.mt, t, p)
            case None => m
            case Some(e) => m.(at := Failed(e))
  {
    RunFrames(cfg, m, WireBytes(Other(t, p)));
    if ReservedType(t) {
      ConcatAssoc(EncodeVarint(t), EncodeVarint(|p|), p);
      ReservedRun(t, EncodeVarint(|p|) + p);
    } else if KnownType(t) {
      KnownFrameRun(t, p);
      OtherDecoded(cfg, m, m.at.phase, t, p);
    } else {
      UnknownFrameIgnored(cfg, m, t, p);
    }
  }

  // ----- Messages -----

  /** The block of a HEADERS frame is a header section that the receiver delivers. */
  ghost function SectionOf(cfg: Config, f: WireFrame): Option<Section> {
    if !f.WireHeaders? || f.block == [] || |f.block| > 393216 || cfg.decode(f.block).None? then None
    else Checked(cfg.mt, cfg.decode(f.block).value)
  }

  ghost predicate IsTrailers(f: WireFrame) {
    f.WireHeaders? && |f.block| <= 393216
  }

  /** Data from the first frame to j, then trailers, or nothing. */
  ghost predicate BodyUpTo(us: seq<WireFrame>, j: nat) {
    && j <= |us| <= j + 1
    && (forall k :: 0 <= k < j ==> us[k].WireData?)
    && (j < |us| ==> IsTrailers(us[j]))
  }

  ghost predicate IsBody(us: seq<WireFrame>) {
    exists j: nat :: BodyUpTo(us, j)
  }

  /** Header sections up to i, of which only the last can be, and behind which comes a body if it is, the final
      one. */
  ghost predicate SectionsUpTo(cfg: Config, us: seq<WireFrame>, i: nat) {
    && i <= |us|
    && (forall k :: 0 <= k < i ==> SectionOf(cfg, us[k]).Some? && !SectionOf(cfg, us[k]).value.extended)
    && (forall k :: 0 <= k < i - 1 ==> SectionOf(cfg, us[k]).value.interim)
    && (i < |us| ==> i > 0 && !SectionOf(cfg, us[i - 1]).value.interim && IsBody(us[i..]))
  }

  /** An Extended CONNECT request, behind which anything may come. */
  ghost predicate IsSession(cfg: Config, us: seq<WireFrame>) {
    us != [] && SectionOf(cfg, us[0]).Some? && SectionOf(cfg, us[0]).value.extended
  }

  ghost predicate IsMessage(cfg: Config, us: seq<WireFrame>) {
    IsSession(cfg, us) || exists i: nat :: SectionsUpTo(cfg, us, i)
  }

  /** The frames that are not ignored. */
  ghost function Meant(mt: MessageType, fs: seq<WireFrame>): seq<WireFrame> {
    if fs == [] then []
    else if fs[0].Other? && OtherError(mt, fs[0].frameType, fs[0].payload).None? then Meant(mt, fs[1..])
    else [fs[0]] + Meant(mt, fs[1..])
  }

  /** What may come next, by what has come. */
  ghost predicate Follows(cfg: Config, phase: Phase, us: seq<WireFrame>) {
    match phase
    case WaitHeaders => IsMessage(cfg, us)
    case WaitData => IsBody(us)
    case WaitFin => us == []
  }

  ghost function DataOf(fs: seq<WireFrame>): seq<byte> {
    if fs == [] then [] else (if fs[0].WireData? then fs[0].payload else []) + DataOf(fs[1..])
  }

  // ----- One frame -----

  lemma HeadersFrameReceived(cfg: Config, m: Message, block: S.Payload)
    requires m.at.Between? && m.at.got == []
    ensures Run(cfg, m, WireBytes(WireHeaders(block)))
         == if |block| > 393216 then m.(at := Failed(HttpExcessiveLoad))
            else OnFrame(cfg, m, m.at.phase, HeadersFrame(block))
  {
    KnownFrameRun(1, block);
    RunFrames(cfg, m, WireBytes(WireHeaders(block)));
  }

  lemma DataFrameReceived(cfg: Config, m: Message, payload: S.Payload)
    requires m.at.Between? && m.at.got == []
    ensures Run(cfg, m, WireBytes(WireData(payload)))
         == if m.at.phase == WaitData then m.(body := m.body + payload)
            else m.(at := Failed(HttpFrameUnexpected))
  {
    if m.at.phase == WaitData {
      DataReceived(cfg, m, payload);
    } else {
      DataFrameRun(|payload|, payload);
      RunFrames(cfg, m, WireBytes(WireData(payload)));
      RunStuck(cfg, m.(at := Failed(HttpFrameUnexpected)), payload);
    }
  }

  /** Behind the trailers there is nothing but frames that are ignored. */
  lemma AfterTrailers(cfg: Config, m: Message, f: WireFrame)
    requires m.at == Between(WaitFin, []) && !f.Other? && (f.WireHeaders? ==> |f.block| <= 393216)
    ensures Run(cfg, m, WireBytes(f)) == m.(at := Failed(HttpFrameUnexpected))
  {
    match f
    case WireHeaders(block) => HeadersFrameReceived(cfg, m, block);
    case WireData(payload) => DataFrameReceived(cfg, m, payload);
  }

  // ----- The first frame of many -----

  lemma FirstOfBody(u: WireFrame, us: seq<WireFrame>)
    ensures IsBody([u] + us) <==> if u.WireData? then IsBody(us) else IsTrailers(u) && us == []
  {
    var all := [u] + us;
    if IsBody(all) {
      var j: nat :| BodyUpTo(all, j);
      if j > 0 {
        assert all[0].WireData?;
        assert forall k :: 0 <= k < j - 1 ==> us[k] == all[k + 1];
        assert BodyUpTo(us, j - 1);
      }
    }
    if u.WireData? && IsBody(us) {
      var j: nat :| BodyUpTo(us, j);
      assert BodyUpTo(all, j + 1);
    }
    if IsTrailers(u) && us == [] {
      assert BodyUpTo(all, 0);
    }
  }

  lemma EmptyBody()
    ensures IsBody([])
  {
    assert BodyUpTo([], 0);
  }

  /** Informational sections are only in responses, and sessions only in requests. */
  lemma NotBoth(cfg: Config, f: WireFrame, g: WireFrame)
    requires SectionOf(cfg, f).Some? && SectionOf(cfg, f).value.interim && SectionOf(cfg, g).Some?
    ensures !SectionOf(cfg, g).value.extended
  {
  }

  lemma SectionsTail(cfg: Config, u: WireFrame, us: seq<WireFrame>, i: nat)
    requires SectionsUpTo(cfg, [u] + us, i) && SectionOf(cfg, u).Some?
    ensures SectionOf(cfg, u).value.interim ==> i > 0 && SectionsUpTo(cfg, us, i - 1)
    ensures !SectionOf(cfg, u).value.interim ==> IsBody(us)
  {
    var all := [u] + us;
    assert all[0] == u && i > 0 && all[i..] == us[i - 1..];
    if SectionOf(cfg, u).value.interim {
      assert forall k :: 0 <= k < i - 1 ==> us[k] == all[k + 1];
    } else {
      assert i == 1;
      assert us[0..] == us;
      if us == [] {
        EmptyBody();
      }
    }
  }

  lemma OneMoreSection(cfg: Config, u: WireFrame, us: seq<WireFrame>, i: nat)
    requires SectionOf(cfg, u).Some? && !SectionOf(cfg, u).value.extended && SectionOf(cfg, u).value.interim
    requires SectionsUpTo(cfg, us, i)
    ensures SectionsUpTo(cfg, [u] + us, i + 1)
  {
    var all := [u] + us;
    assert all[i + 1..] == us[i..];
    assert forall k :: 0 < k < i + 1 ==> all[k] == us[k - 1];
  }

  lemma FirstOfMessage(cfg: Config, u: WireFrame, us: seq<WireFrame>)
    requires SectionOf(cfg, u).Some? && !SectionOf(cfg, u).value.extended
    ensures IsMessage(cfg, [u] + us) <==> if SectionOf(cfg, u).value.interim then IsMessage(cfg, us) else IsBody(us)
  {
    var all := [u] + us;
    var interim := SectionOf(cfg, u).value.interim;
    assert all[0] == u;
    if IsMessage(cfg, all) {
      var i: nat :| SectionsUpTo(cfg, all, i);
      SectionsTail(cfg, u, us, i);
    }
    if interim && IsMessage(cfg, us) {
      if IsSession(cfg, us) {
        NotBoth(cfg, u, us[0]);
      }
      var i: nat :| SectionsUpTo(cfg, us, i);
      OneMoreSection(cfg, u, us, i);
    }
    if !interim && IsBody(us) {
      assert all[1..] == us;
      assert SectionsUpTo(cfg, all, 1);
    }
  }

  lemma NotFirst(cfg: Config, u: WireFrame, us: seq<WireFrame>)
    requires SectionOf(cfg, u).None?
    ensures !IsMessage(cfg, [u] + us)
  {
    var all := [u] + us;
    assert all[0] == u;
    forall i: nat
      ensures !SectionsUpTo(cfg, all, i)
    {
    }
  }

  /** What comes behind a frame that is not ignored. */
  ghost predicate FollowsFrom(cfg: Config, at: Position, us: seq<WireFrame>) {
    match at
    case Between(phase, _) => Follows(cfg, phase, us)
    case InBody(_) => false
    case Extended => true
    case Failed(_) => false
  }

  lemma FirstFrame(cfg: Config, m: Message, f: WireFrame, us: seq<WireFrame>)
    requires m.at.Between? && m.at.got == [] && Typed(f)
    requires f.Other? ==> OtherError(cfg.mt, f.frameType, f.payload).Some?
    ensures var m' := Run(cfg, m, WireBytes(f));
            && (FollowsFrom(cfg, m'.at, us) <==> Follows(cfg, m.at.phase, [f] + us))
            && (m'.at.Between? ==> m'.at.got == [] && m'.body == m.body + (if f.WireData? then f.payload else []))
            && !m'.at.InBody?
  {
    assert m.body + [] == m.body;
    match f
    case Other(t, p) =>
      OtherReceived(cfg, m, t, p);
      NotFirst(cfg, f, us);
      FirstOfBody(f, us);
    case WireData(payload) =>
      DataFrameReceived(cfg, m, payload);
      NotFirst(cfg, f, us);
      FirstOfBody(f, us);
    case WireHeaders(block) =>
      HeadersFrameReceived(cfg, m, block);
      FirstOfBody(f, us);
      if SectionOf(cfg, f).None? {
        NotFirst(cfg, f, us);
      } else if SectionOf(cfg, f).value.extended {
        assert ([f] + us)[0] == f;
      } else {
        FirstOfMessage(cfg, f, us);
      }
  }

  /** A receiver takes a stream of frames exactly if it is a message, and then the body is what is in the DATA
      frames. */
  lemma {:induction false} Accepted(cfg: Config, m: Message, fs: seq<WireFrame>)
    requires m.at.Between? && m.at.got == [] && (forall i :: 0 <= i < |fs| ==> Typed(fs[i]))
    ensures var m' := Run(cfg, m, StreamBytes(fs));
            && (!m'.at.Failed? <==> Follows(cfg, m.at.phase, Meant(cfg.mt, fs)))
            && (m'.at.Between? ==> m'.body == m.body + DataOf(fs))
            && !m'.at.InBody?
    decreases |fs|
  {
    if fs == [] {
      assert m.body + [] == m.body;
      EmptyBody();
      assert SectionsUpTo(cfg, [], 0);
    } else {
      var f, rest := fs[0], fs[1..];
      var m1 := Run(cfg, m, WireBytes(f));
      RunConcat(cfg, m, WireBytes(f), StreamBytes(rest));
      if f.Other? && OtherError(cfg.mt, f.frameType, f.payload).None? {
        OtherReceived(cfg, m, f.frameType, f.payload);
        Accepted(cfg, m, rest);
        assert [] + DataOf(rest) == DataOf(rest);
      } else {
        FirstFrame(cfg, m, f, Meant(cfg.mt, rest));
        if m1.at.Between? {
          Accepted(cfg, m1, rest);
          ConcatAssoc(m.body, if f.WireData? then f.payload else [], DataOf(rest));
        } else {
          RunStuck(cfg, m1, StreamBytes(rest));
        }
      }
    }
  }

  /** The whole stream of a message. */
  lemma AcceptedStream(cfg: Config, fs: seq<WireFrame>)
    requires forall i :: 0 <= i < |fs| && fs[i].Other? ==> fs[i].frameType > 1
    ensures var m := Run(cfg, Start, StreamBytes(fs));
            && (!m.at.Failed? <==> IsMessage(cfg, Meant(cfg.mt, fs)))
            && (m.at.Between? ==> m.body == DataOf(fs))
  {
    Accepted(cfg, Start, fs);
    assert Start.body + DataOf(fs) == DataOf(fs);
  }
}
