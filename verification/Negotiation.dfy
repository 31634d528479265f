/** What an endpoint does with the peer's SETTINGS: remember them for 0-RTT, accept the real ones once,
    keep the QPACK encoder configured accordingly, and refuse other control frames before them
    (section 7.2.4.2 of RFC 9114 and section 3.2.3 of RFC 9204).
 */
module Negotiation {
  import opened Bits
  import opened Varint
  import opened Decoders
  import opened Settings

  datatype State = Initializing | ZeroRtt | Connected | GoingAway | Closing

  datatype RemoteSettings = NotReceived | Remembered(zeroRtt: seq<Setting>) | Received(settings: seq<Setting>)

  datatype ControlFrame =
    | SettingsFrame(settings: seq<Setting>)
    | Goaway
    | PriorityUpdateRequest
    | CancelPush
    | MaxPushId
    | PriorityUpdatePush
    | OtherFrame

  datatype NegotiationError =
    | SettingsError
    | MissingSettings
    | FrameUnexpected
    | QpackEncoderStream
    | QpackDecoderStream
    | InternalError
    | TransportError
    | GoawayError
    | Fatal
    | InvalidState
    | InvalidResumptionToken

  datatype Outcome<+T> = Done(value: T) | Failed(error: NegotiationError)

  /** Limits of the QPACK encoder: a capacity below 2^30 and a 16-bit number of blocked streams. */
  predicate QpackLimits(s: seq<Setting>) {
    Get(s, MaxTableCapacity) < 0x4000_0000 && Get(s, BlockedStreams) < 0x1_0000
  }

  predicate SameQpack(s: seq<Setting>, t: seq<Setting>) {
    Get(s, MaxTableCapacity) == Get(t, MaxTableCapacity) && Get(s, BlockedStreams) == Get(t, BlockedStreams)
  }

  /** The real settings may replace the remembered ones: none of them got smaller, and a table capacity
      that was used has not changed. */
  ghost predicate Compatible(s: seq<Setting>, new_: seq<Setting>) {
    && (forall t :: Get(s, t) <= Get(new_, t))
    && (Get(s, MaxTableCapacity) == 0 || Get(s, MaxTableCapacity) == Get(new_, MaxTableCapacity))
  }

  /** Acceptable settings that are refused half-way: the capacity, which grows, has been taken over when the
      number of blocked streams turns out to be too large. */
  ghost predicate HalfWay(s: seq<Setting>, new_: seq<Setting>) {
    && Compatible(s, new_)
    && Get(s, MaxTableCapacity) < Get(new_, MaxTableCapacity) < 0x4000_0000 && Get(new_, BlockedStreams) >= 0x1_0000
  }

  // ----- What every event leads to -----

  /** Where the negotiation is, with the QPACK encoder's configuration. */
  datatype Progress = Progress(state: State, remote: RemoteSettings, capacity: nat, blocked: nat)

  const Fresh := Progress(Initializing, NotReceived, 0, 0)

  /** The answer to a SETTINGS frame. */
  ghost function SettingsVerdict(remote: RemoteSettings, new_: seq<Setting>): Outcome<()> {
    match remote
    case NotReceived => if QpackLimits(new_) then Done(()) else Failed(QpackEncoderStream)
    case Remembered(s) =>
      if Compatible(s, new_) then
        if SameQpack(s, new_) || QpackLimits(new_) then Done(()) else Failed(QpackEncoderStream)
      else if && Get(s, MaxHeaderListSize) <= Get(new_, MaxHeaderListSize)
              && 0 < Get(s, MaxTableCapacity) < Get(new_, MaxTableCapacity)
      then Failed(QpackDecoderStream)
      else Failed(SettingsError)
    case Received(_) => Failed(FrameUnexpected)
  }

  /** The QPACK encoder is told about the new settings. */
  ghost predicate Reconfigures(remote: RemoteSettings, new_: seq<Setting>) {
    match remote
    case NotReceived => true
    case Remembered(s) => Compatible(s, new_) && !SameQpack(s, new_)
    case Received(_) => false
  }

  /** The encoder takes the capacity first, and keeps it even if it then refuses the number of streams. */
  function Reconfigured(v: Progress, s: seq<Setting>): Progress {
    if Get(s, MaxTableCapacity) >= 0x4000_0000 then v
    else if Get(s, BlockedStreams) >= 0x1_0000 then v.(capacity := Get(s, MaxTableCapacity))
    else v.(capacity := Get(s, MaxTableCapacity), blocked := Get(s, BlockedStreams))
  }

  ghost function AfterSettings(v: Progress, new_: seq<Setting>): Progress {
    var v' := if Reconfigures(v.remote, new_) then Reconfigured(v, new_) else v;
    if SettingsVerdict(v.remote, new_).Done? then v'.(remote := Received(new_)) else v'.(state := Closing)
  }

  /** A frame on the control stream; `allowed` says that the id of a GOAWAY frame is one that may come. */
  ghost function AfterFrame(v: Progress, f: ControlFrame, allowed: bool): Progress {
    if v.state == Initializing then v
    else if f.SettingsFrame? then AfterSettings(v, f.settings)
    else if v.remote.Received? && !f.OtherFrame? && (f.Goaway? ==> allowed)
    then v.(state := if f.Goaway? && v.state == Connected then GoingAway else v.state)
    else v.(state := Closing)
  }

  function AfterResume(v: Progress, token: seq<byte>, answer: Answer): Progress {
    var t := ParseToken(token);
    if v.state != Initializing || t.None? then v
    else if answer == ShutDown then v.(state := Closing)
    else if answer != Taken(true, true) then v
    else
      var v' := Reconfigured(v, t.value.settings);
      if QpackLimits(t.value.settings) then v'.(state := ZeroRtt, remote := Remembered(t.value.settings)) else v'
  }

  ghost function After(v: Progress, e: Event): Progress {
    match e
    case Resume(token, answer) => AfterResume(v, token, answer)
    case Frame(f, allowed) => AfterFrame(v, f, allowed)
    case ZeroRttAccepted(_) => if v.state == Initializing then v.(state := ZeroRtt) else v
    case Rejected => if v.state == ZeroRtt then Fresh else v
    case TransportConnected(ready) =>
      if v.state == ZeroRtt || (v.state == Initializing && ready) then v.(state := Connected) else v
    case TransportClosed => v.(state := Closing)
  }

  ghost function AfterAll(v: Progress, events: seq<Event>): Progress
    decreases |events|
  {
    if events == [] then v else After(AfterAll(v, events[..|events| - 1]), events[|events| - 1])
  }

  class Negotiator {
    var state: State
    var remote: RemoteSettings
    // The QPACK encoder's configuration.
    var capacity: nat
    var blocked: nat
    // History since the connection, or its last 0-RTT rejection, began.
    ghost var remembered: Option<seq<Setting>>
    ghost var settingsAccepted: nat
    ghost var othersPassed: nat
    ghost var refusedHalfWay: bool

    /** The encoder is configured with the settings in force, unless a SETTINGS frame was refused half-way,
        which closes the connection. */
    ghost predicate Valid()
      reads this
    {
      && (state == Initializing ==> remote == NotReceived)
      && (!refusedHalfWay && remote.Remembered? ==> Configured(remote.zeroRtt))
      && (!refusedHalfWay && remote.Received? ==> Configured(remote.settings))
      && (refusedHalfWay ==> state == Closing)
      && (remote.NotReceived? ==> remembered == None)
      && (remote.Remembered? ==> remembered == Some(remote.zeroRtt))
      && (remote.Received? && remembered.Some? ==> Compatible(remembered.value, remote.settings))
      && settingsAccepted == (if remote.Received? then 1 else 0)
      && (othersPassed > 0 ==> remote.Received?)
    }

    function Now(): Progress
      reads this
    {
      Progress(state, remote, capacity, blocked)
    }

    /** The QPACK encoder was last configured with these settings. */
    ghost predicate Configured(s: seq<Setting>)
      reads this
    {
      capacity == Get(s, MaxTableCapacity) && blocked == Get(s, BlockedStreams)
    }

    constructor ()
      ensures Valid() && Now() == Fresh && !refusedHalfWay
    {
      state, remote, capacity, blocked := Initializing, NotReceived, 0, 0;
      remembered, settingsAccepted, othersPassed, refusedHalfWay := None, 0, 0, false;
    }

    /** Configure the encoder; the first value sticks even if the second is refused. */
    method SetQpackSettings(s: seq<Setting>) returns (r: Outcome<()>)
      modifies this`capacity, this`blocked
      ensures r == if QpackLimits(s) then Done(()) else Failed(QpackEncoderStream)
      ensures r.Done? ==> Configured(s)
      ensures Now() == Reconfigured(old(Now()), s)
    {
      if Get(s, MaxTableCapacity) > 0x3fff_ffff {
        return Failed(QpackEncoderStream);
      }
      capacity := Get(s, MaxTableCapacity);
      if Get(s, BlockedStreams) > 0xffff {
        return Failed(QpackEncoderStream);
      }
      blocked := Get(s, BlockedStreams);
      r := Done(());
    }

    /** A resumption token brought back the settings of an earlier connection; `ready` says that the
        transport let the control and QPACK streams be created. */
    method SetZeroRttSettings(s: seq<Setting>, ready: bool) returns (r: Outcome<()>)
      requires Valid() && state == Initializing
      modifies this
      ensures Valid()
      ensures r.Done? <==> ready && QpackLimits(s)
      ensures r.Done? ==> state == ZeroRtt && remote == Remembered(s) && Configured(s)
      ensures r.Failed? ==>
                && r.error == (if ready then QpackEncoderStream else TransportError)
                && state == old(state) && remote == old(remote)
      ensures refusedHalfWay == old(refusedHalfWay)
      ensures r.Failed? ==> Now() == if ready then Reconfigured(old(Now()), s) else old(Now())
    {
      if !ready {
        return Failed(TransportError);
      }
      r := SetQpackSettings(s);
      if r.Done? {
        remote := Remembered(s);
        remembered := Some(s);
        state := ZeroRtt;
      }
    }

    /** The application has a token from an earlier connection. The result is the transport's part of it, which
        `answer` says what the transport does with. */
    method EnableResumption(token: seq<byte>, answer: Answer) returns (r: Outcome<seq<byte>>)
      requires Valid()
      modifies this
      ensures Valid()
      ensures old(state) != Initializing ==> r == Failed(InvalidState)
      ensures old(state) == Initializing && ParseToken(token).None? ==> r == Failed(InvalidResumptionToken)
      ensures r.Done? ==>
                && old(state) == Initializing && ParseToken(token).Some?
                && r.value == ParseToken(token).value.transport
      ensures r.Done? && answer == Taken(true, true) ==>
                state == ZeroRtt && remote == Remembered(ParseToken(token).value.settings)
      ensures r.Failed? || answer != Taken(true, true) ==>
                && remote == old(remote)
                && state == if r == Failed(Fatal) then Closing else old(state)
      ensures Now() == AfterResume(old(Now()), token, answer)
      ensures old(state) == Initializing && ParseToken(token).Some? ==>
                match answer
                case Refused => r == Failed(TransportError)
                case ShutDown => r == Failed(Fatal)
                case Taken(sending, ready) =>
                  if !sending || (ready && QpackLimits(ParseToken(token).value.settings)) then r.Done?
                  else r == Failed(if ready then QpackEncoderStream else TransportError)
    {
      if state != Initializing {
        return Failed(InvalidState);
      }
      var t := DecodeToken(token);
      if t.None? {
        return Failed(InvalidResumptionToken);
      }
      match answer {
        case Refused =>
          return Failed(TransportError);
        case ShutDown =>
          state := Closing;
          return Failed(Fatal);
        case Taken(sending, ready) =>
          if sending {
            var set_ := SetZeroRttSettings(t.value.settings, ready);
            if set_.Failed? {
              return Failed(set_.error);
            }
          }
      }
      r := Done(t.value.transport);
    }

    /** The loop over the remembered values: the first offending one decides the error. */
    method CompareSettings(s: seq<Setting>, new_: seq<Setting>) returns (r: Outcome<bool>)
      ensures r.Done? <==> Compatible(s, new_)
      ensures r.Done? ==> r.value == !SameQpack(s, new_)
      ensures r == Failed(QpackDecoderStream) <==>
                && Get(s, MaxHeaderListSize) <= Get(new_, MaxHeaderListSize)
                && 0 < Get(s, MaxTableCapacity) < Get(new_, MaxTableCapacity)
      ensures r.Failed? ==> r.error in {SettingsError, QpackDecoderStream}
    {
      var types := [MaxHeaderListSize, MaxTableCapacity, BlockedStreams, EnableConnect, EnableWebTransport,
                    EnableH3Datagram];
      var qpackChanged := false;
      for i := 0 to |types|
        invariant forall j :: 0 <= j < i ==> Get(s, types[j]) <= Get(new_, types[j])
        invariant i > 1 ==> Get(s, types[1]) == 0 || Get(s, types[1]) == Get(new_, types[1])
        invariant qpackChanged <==>
                    || (i > 1 && Get(s, types[1]) != Get(new_, types[1]))
                    || (i > 2 && Get(s, types[2]) != Get(new_, types[2]))
      {
        var old_, new_value := Get(s, types[i]), Get(new_, types[i]);
        if old_ != new_value {
          if old_ > new_value {
            return Failed(SettingsError);
          }
          match types[i] {
            case MaxTableCapacity =>
              if old_ != 0 {
                assert i == 1 && Get(s, types[0]) <= Get(new_, types[0]);
                return Failed(QpackDecoderStream);
              }
              qpackChanged := true;
            case BlockedStreams => qpackChanged := true;
            case _ =>
          }
        }
      }
      forall t
        ensures Get(s, t) <= Get(new_, t)
      {
        AllTypes(t);
      }
      r := Done(qpackChanged);
    }

    static lemma AllTypes(t: SettingType)
      ensures t in [MaxHeaderListSize, MaxTableCapacity, BlockedStreams, EnableConnect, EnableWebTransport,
                    EnableH3Datagram]
    {
    }

    /** The peer's SETTINGS frame. On an error the connection closes. */
    method HandleSettings(new_: seq<Setting>) returns (r: Outcome<()>)
      requires Valid() && state != Initializing
      modifies this
      ensures Valid()
      ensures r == SettingsVerdict(old(remote), new_) && Now() == AfterSettings(old(Now()), new_)
      ensures othersPassed == old(othersPassed)
      ensures refusedHalfWay == (old(refusedHalfWay) || (old(remote).Remembered? && HalfWay(old(remote).zeroRtt, new_)))
      ensures old(remote).Remembered? && !old(refusedHalfWay) && r.Failed? ==>
                (Configured(old(remote).zeroRtt) <==> !HalfWay(old(remote).zeroRtt, new_))
    {
      refusedHalfWay := refusedHalfWay || (remote.Remembered? && HalfWay(remote.zeroRtt, new_));
      match remote {
        case NotReceived =>
          r := SetQpackSettings(new_);
        case Remembered(s) =>
          var changed := CompareSettings(s, new_);
          if changed.Failed? {
            r := Failed(changed.error);
          } else if changed.value {
            r := SetQpackSettings(new_);
          } else {
            r := Done(());
          }
        case Received(_) =>
          r := Failed(FrameUnexpected);
      }
      if r.Done? {
        remote := Received(new_);
        settingsAccepted := settingsAccepted + 1;
      } else {
        state := Closing;
      }
    }

    /** Frames on the control stream: the ones that are not SETTINGS pass to the client or server handler. */
    method HandleControlFrame(f: ControlFrame) returns (r: Outcome<Option<ControlFrame>>)
      requires Valid() && state != Initializing
      modifies this
      ensures Valid()
      ensures f.SettingsFrame? ==>
                && r == (var v := SettingsVerdict(old(remote), f.settings);
                         if v.Done? then Done(None) else Failed(v.error))
                && Now() == AfterSettings(old(Now()), f.settings)
      ensures !f.SettingsFrame? ==>
                && r == (if !old(remote).Received? then Failed(MissingSettings)
                         else if f in {Goaway, PriorityUpdateRequest, CancelPush, MaxPushId, PriorityUpdatePush} then Done(Some(f))
                         else Failed(FrameUnexpected))
                && Now() == (if r.Done? then old(Now()) else old(Now()).(state := Closing))
      ensures !f.SettingsFrame? || old(remote).Received? ==> refusedHalfWay == old(refusedHalfWay)
      ensures othersPassed == old(othersPassed) + (if r.Done? && r.value.Some? then 1 else 0)
    {
      if !f.SettingsFrame? && !remote.Received? {
        state := Closing;
        return Failed(MissingSettings);
      }
      match f {
        case SettingsFrame(s) =>
          var done := HandleSettings(s);
          r := if done.Done? then Done(None) else Failed(done.error);
        case OtherFrame =>
          state := Closing;
          r := Failed(FrameUnexpected);
        case _ =>
          othersPassed := othersPassed + 1;
          r := Done(Some(f));
      }
    }

    /** The server refused 0-RTT: start over. */
    method HandleZeroRttRejected() returns (r: Outcome<()>)
      requires Valid()
      modifies this
      ensures Valid()
      ensures old(state) == ZeroRtt ==> r.Done? && Now() == Fresh
      ensures old(state) != ZeroRtt ==> r == Failed(InternalError) && Now() == old(Now())
    {
      if state != ZeroRtt {
        return Failed(InternalError);
      }
      state, remote, capacity, blocked := Initializing, NotReceived, 0, 0;
      remembered, settingsAccepted, othersPassed, refusedHalfWay := None, 0, 0, false;
      r := Done(());
    }

    /** The handshake is complete; without 0-RTT the control and QPACK streams are created now. */
    method HandleConnected(ready: bool) returns (r: Outcome<()>)
      requires Valid()
      modifies this`state
      ensures Valid()
      ensures r == if old(state) == Initializing && !ready then Failed(TransportError) else Done(())
      ensures state == if r.Done? && old(state) in {Initializing, ZeroRtt} then Connected else old(state)
    {
      if state == Initializing && !ready {
        return Failed(TransportError);
      }
      if state in {Initializing, ZeroRtt} {
        state := Connected;
      }
      r := Done(());
    }

    /** A server takes a client's 0-RTT data, before the handshake is complete. */
    method HandleZeroRttAccepted(ready: bool) returns (r: Outcome<()>)
      requires Valid() && state == Initializing
      modifies this`state
      ensures Valid() && state == ZeroRtt
      ensures r == if ready then Done(()) else Failed(TransportError)
    {
      state := ZeroRtt;
      r := if ready then Done(()) else Failed(TransportError);
    }

    /** The transport closes. */
    method HandleClosing()
      requires Valid()
      modifies this`state
      ensures Valid() && state == Closing
    {
      state := Closing;
    }

    /** A GOAWAY frame that passed the control stream; `allowed` says that its id is one that may come. */
    method HandleGoaway(allowed: bool) returns (r: Outcome<()>)
      requires Valid() && remote.Received?
      modifies this`state
      ensures Valid()
      ensures r == if allowed then Done(()) else Failed(GoawayError)
      ensures state == if !allowed then Closing else if old(state) == Connected then GoingAway else old(state)
    {
      if !allowed {
        state := Closing;
        return Failed(GoawayError);
      }
      if state == Connected {
        state := GoingAway;
      }
      r := Done(());
    }

    /** Any run of events keeps the negotiation invariant, and leads where it has to. */
    method Run(events: seq<Event>)
      requires Valid()
      modifies this
      ensures Valid() && Now() == AfterAll(old(Now()), events)
    {
      for i := 0 to |events|
        invariant Valid() && Now() == AfterAll(old(Now()), events[..i])
      {
        OneMoreEvent(old(Now()), events, i);
        Handle(events[i]);
      }
      assert events[..|events|] == events;
    }

    method Handle(e: Event)
      requires Valid()
      modifies this
      ensures Valid() && Now() == After(old(Now()), e)
    {
      match e {
        case Resume(token, answer) =>
          var _ := EnableResumption(token, answer);
        case Frame(f, allowed) =>
          if state != Initializing {
            var passed := HandleControlFrame(f);
            if passed == Done(Some(Goaway)) {
              var _ := HandleGoaway(allowed);
            }
          }
        case ZeroRttAccepted(ready) =>
          if state == Initializing {
            var _ := HandleZeroRttAccepted(ready);
          }
        case Rejected =>
          var _ := HandleZeroRttRejected();
        case TransportConnected(ready) =>
          var _ := HandleConnected(ready);
        case TransportClosed =>
          HandleClosing();
      }
    }
  }

  /** What the transport makes of a resumption token: it refuses it, shuts down over it, or takes it, for
      0-RTT if it is `sending`, and then lets the control and QPACK streams be `ready` or not. */
  datatype Answer = Refused | ShutDown | Taken(sending: bool, ready: bool)

  datatype Event =
    | Resume(token: seq<byte>, answer: Answer)
    | Frame(frame: ControlFrame, allowed: bool)
    | ZeroRttAccepted(ready: bool)
    | Rejected
    | TransportConnected(ready: bool)
    | TransportClosed

  lemma OneMoreEvent(v: Progress, events: seq<Event>, i: nat)
    requires i < |events|
    ensures AfterAll(v, events[..i + 1]) == After(AfterAll(v, events[..i]), events[i])
  {
    assert events[..i + 1][..i] == events[..i];
  }

  /** Once closing, always closing. */
  lemma {:induction false} ClosingStays(v: Progress, events: seq<Event>)
    requires v.state == Closing
    ensures AfterAll(v, events).state == Closing
    decreases |events|
  {
    if events != [] {
      ClosingStays(v, events[..|events| - 1]);
    }
  }

  /** The peer's settings stay what they are, unless 0-RTT is rejected. */
  lemma {:induction false} SettingsStay(v: Progress, events: seq<Event>)
    requires v.state != Initializing && v.remote.Received? && Rejected !in events
    ensures AfterAll(v, events).remote == v.remote
    ensures AfterAll(v, events).capacity == v.capacity && AfterAll(v, events).blocked == v.blocked
    ensures AfterAll(v, events).state != Initializing
    decreases |events|
  {
    if events != [] {
      SettingsStay(v, events[..|events| - 1]);
    }
  }

  /** Every SETTINGS frame that is refused half-way leaves a resuming client's encoder with a capacity that no
      settings in force have, which is why the connection has to close. */
  method RefusedHalfWay(s: seq<Setting>, new_: seq<Setting>) returns (n: Negotiator)
    requires QpackLimits(s) && HalfWay(s, new_)
    ensures n.Valid() && n.state == Closing && n.remote == Remembered(s) && !n.Configured(s)
  {
    n := new Negotiator();
    var resumed := n.SetZeroRttSettings(s, true);
    assert resumed.Done?;
    var _ := n.HandleSettings(new_);
  }

  /** Such frames exist: the empty table of the earlier connection grows, and too many streams may block. */
  method HalfConfigured() returns (n: Negotiator)
    ensures n.state == Closing && n.remote.Remembered? && !n.Configured(n.remote.zeroRtt)
  {
    n := RefusedHalfWay([Setting(MaxTableCapacity, 0), Setting(BlockedStreams, 0)],
                        [Setting(MaxTableCapacity, 100), Setting(BlockedStreams, 0x1_0000)]);
  }

  // ----- Resumption tokens -----

  /** The settings and the transport token that a resumption token holds. */
  datatype Token = Token(settings: seq<Setting>, transport: seq<byte>)

  function EncodeToken(s: seq<Setting>, transport: seq<byte>): (token: seq<byte>)
    requires Encodable(s) && |PairBytes(AllPairs(s))| <= MAX_VARINT
  {
    FrameContents(s) + transport
  }

  method DecodeToken(token: seq<byte>) returns (r: Option<Token>)
    ensures r == ParseToken(token)
  {
    var dec := new Decoder(token);
    var slice := dec.DecodeVvec();
    if slice.None? {
      return None;
    }
    var settingsDec := new Decoder(slice.value);
    var settings := new HSettings([]);
    var ok := settings.DecodeFrameContents(settingsDec);
    if ok.Err? {
      return None;
    }
    var transport := dec.DecodeRemainder();
    r := Some(Token(settings.settings, transport));
  }

  function ParseToken(token: seq<byte>): (r: Option<Token>) {
    var p := ParseVarint(token);
    if p.None? || |token| - p.value.size < p.value.value then None
    else
      var body := token[p.value.size..];
      var s := DecodeAll(body[..p.value.value], []);
      if s.Err? then None else Some(Token(s.value, body[p.value.value..]))
  }

  /** What was put into a token comes out of it. */
  lemma TokenRoundTrip(s: seq<Setting>, transport: seq<byte>)
    requires Legal(s) && |PairBytes(AllPairs(s))| <= MAX_VARINT
    ensures ParseToken(EncodeToken(s, transport)) == Some(Token(Kept(s), transport))
  {
    var inner := PairBytes(AllPairs(s));
    SettingsRoundTrip(s);
    VarintRoundTrip(|inner|, inner + transport);
    var prefix := EncodeVarint(|inner|);
    ConcatAssoc(prefix, inner, transport);
    var token := prefix + (inner + transport);
    assert token[|prefix|..] == inner + transport;
    assert (inner + transport)[..|inner|] == inner && (inner + transport)[|inner|..] == transport;
  }

  // ----- Agreement between the two ends of a resumption -----

  /** The settings a client has after a server configured with p sent its SETTINGS frame. */
  function Announced(p: Parameters): seq<Setting> {
    Kept(FromParameters(p))
  }

  /** The settings the client remembers after storing them in a token and resuming. */
  function AfterResumption(p: Parameters): seq<Setting> {
    Kept(Announced(p))
  }

  lemma AnnouncedValues(p: Parameters)
    requires p.Valid()
    ensures DecodeAll(PairBytes(AllPairs(FromParameters(p))), []) == Ok(Announced(p))
    ensures Legal(Announced(p)) && HasValues(Announced(p), p) && HasValues(AfterResumption(p), p)
  {
    FromParametersLegal(p);
    SettingsRoundTrip(FromParameters(p));
    SettingsRoundTrip(Announced(p));
  }

  /** These settings have the values that p announces. */
  ghost predicate HasValues(s: seq<Setting>, p: Parameters) {
    forall t :: Get(s, t) == ParameterValue(p, t)
  }

  lemma CompatibleValues(s: seq<Setting>, new_: seq<Setting>, p: Parameters, p': Parameters)
    requires HasValues(s, p) && HasValues(new_, p')
    ensures Compatible(s, new_) <==>
              && (p.maxTable == 0 || p.maxTable == p'.maxTable) && p.maxBlocked <= p'.maxBlocked
              && (p.WebTransportEnabled() ==> p'.WebTransportEnabled())
              && (p.datagram ==> p'.datagram) && (p.connect ==> p'.connect)
    ensures p'.Valid() ==> QpackLimits(new_)
  {
    if Compatible(s, new_) {
      assert Get(s, EnableWebTransport) <= Get(new_, EnableWebTransport);
      assert Get(s, EnableH3Datagram) <= Get(new_, EnableH3Datagram);
      assert Get(s, EnableConnect) <= Get(new_, EnableConnect);
    }
  }

  /** The client goes on with a server now configured with p' exactly if no promised value shrank and a
      used table capacity is unchanged. */
  lemma ClientAccepts(p: Parameters, p': Parameters)
    requires p.Valid() && p'.Valid()
    ensures Compatible(AfterResumption(p), Announced(p'))
       <==> && (p.maxTable == 0 || p.maxTable == p'.maxTable)
            && p.maxBlocked <= p'.maxBlocked
            && (p.WebTransportEnabled() ==> p'.WebTransportEnabled())
            && (p.datagram ==> p'.datagram)
            && (p.connect ==> p'.connect)
    ensures QpackLimits(Announced(p'))
  {
    AnnouncedValues(p);
    AnnouncedValues(p');
    CompatibleValues(AfterResumption(p), Announced(p'), p, p');
  }

  /** A configuration that the resuming client accepts passes the server's own 0-RTT check. The other way
      round holds exactly when the table capacity was zero or is unchanged and Extended CONNECT is kept. */
  lemma ResumptionAgreement(p: Parameters, p': Parameters)
    requires p.Valid() && p'.Valid()
    ensures var client := Compatible(AfterResumption(p), Announced(p'));
            var server := CheckResult(p', Save(p)) == Accept;
            && (client ==> server)
            && (server ==> (client <==> (p.maxTable == 0 || p.maxTable == p'.maxTable) && (p.connect ==> p'.connect)))
  {
    ClientAccepts(p, p');
    CheckSaved(p, p');
  }

  lemma {:induction false} FewPairs(s: seq<Setting>)
    requires Encodable(s)
    ensures |AllPairs(s)| <= 2 * |s| && |PairBytes(AllPairs(s))| <= 32 * |s|
  {
    if s != [] {
      FewPairs(s[1..]);
      PairBytesConcat(PairsOf(s[0]), AllPairs(s[1..]));
      SmallPairs(PairsOf(s[0]));
    }
  }

  lemma {:induction false} SmallPairs(ps: seq<(varint, varint)>)
    ensures |PairBytes(ps)| <= 16 * |ps|
  {
    if ps != [] {
      SmallPairs(ps[1..]);
    }
  }

  lemma {:induction false} PairBytesConcat(ps: seq<(varint, varint)>, qs: seq<(varint, varint)>)
    ensures PairBytes(ps + qs) == PairBytes(ps) + PairBytes(qs)
  {
    if ps == [] {
      assert ps + qs == qs;
    } else {
      assert (ps + qs)[1..] == ps[1..] + qs;
      PairBytesConcat(ps[1..], qs);
      ConcatAssoc(Pair(ps[0].0, ps[0].1), PairBytes(ps[1..]), PairBytes(qs));
    }
  }

  lemma {:induction false} KeptIsShorter(s: seq<Setting>)
    ensures |Kept(s)| <= |s|
  {
    if s != [] {
      KeptIsShorter(s[1..]);
    }
  }

  lemma AnnouncedFits(p: Parameters)
    requires p.Valid()
    ensures Encodable(Announced(p)) && |PairBytes(AllPairs(Announced(p)))| <= MAX_VARINT
  {
    AnnouncedValues(p);
    KeptIsShorter(FromParameters(p));
    FewPairs(Announced(p));
  }

  // ----- A resumed connection, from the token to the new settings -----

  /** A client resumes with a token, and gets these settings after the handshake. */
  function Resumption(token: seq<byte>, new_: seq<Setting>): seq<Event> {
    [Resume(token, Taken(true, true)), TransportConnected(true), Frame(SettingsFrame(new_), true)]
  }

  lemma TokenTaken(token: seq<byte>)
    requires ParseToken(token).Some? && QpackLimits(ParseToken(token).value.settings)
    ensures var s := ParseToken(token).value.settings;
            var v := Progress(ZeroRtt, Remembered(s), Get(s, MaxTableCapacity), Get(s, BlockedStreams));
            AfterResume(Fresh, token, Taken(true, true)) == v
  {
  }

  lemma SettingsTaken(s: seq<Setting>, new_: seq<Setting>)
    requires QpackLimits(new_)
    ensures var v := Progress(Connected, Remembered(s), Get(s, MaxTableCapacity), Get(s, BlockedStreams));
            if Compatible(s, new_)
            then AfterSettings(v, new_)
              == Progress(Connected, Received(new_), Get(new_, MaxTableCapacity), Get(new_, BlockedStreams))
            else AfterSettings(v, new_).state == Closing
  {
  }

  lemma ThreeEvents(v: Progress, a: Event, b: Event, c: Event)
    ensures AfterAll(v, [a, b, c]) == After(After(After(v, a), b), c)
  {
    var es := [a, b, c];
    OneMoreEvent(v, es, 0);
    OneMoreEvent(v, es, 1);
    OneMoreEvent(v, es, 2);
    assert es[..3] == es && es[..0] == [];
  }

  /** The connection lives exactly if the new settings are compatible with those in the token, and then the
      encoder is configured with them. */
  lemma Resumed(token: seq<byte>, new_: seq<Setting>)
    requires ParseToken(token).Some? && QpackLimits(ParseToken(token).value.settings) && QpackLimits(new_)
    ensures var v := AfterAll(Fresh, Resumption(token, new_));
            if Compatible(ParseToken(token).value.settings, new_)
            then v == Progress(Connected, Received(new_), Get(new_, MaxTableCapacity), Get(new_, BlockedStreams))
            else v.state == Closing
  {
    ThreeEvents(Fresh, Resume(token, Taken(true, true)), TransportConnected(true), Frame(SettingsFrame(new_), true));
    TokenTaken(token);
    SettingsTaken(ParseToken(token).value.settings, new_);
  }

  /** The token that a client has after a connection to a server configured with p. */
  ghost function TokenFrom(p: Parameters, transport: seq<byte>): (token: seq<byte>)
    requires p.Valid()
    ensures ParseToken(token) == Some(Token(AfterResumption(p), transport))
  {
    AnnouncedFits(p);
    AnnouncedValues(p);
    TokenRoundTrip(Announced(p), transport);
    EncodeToken(Announced(p), transport)
  }

  /** A client resumes when the server, which was configured with p, is configured with p'. The connection lives
      exactly if nothing that the client relied on was taken back, and then the QPACK encoder is configured for the
      server as it is now. */
  lemma ResumedConnection(p: Parameters, p': Parameters, transport: seq<byte>)
    requires p.Valid() && p'.Valid()
    ensures var v := AfterAll(Fresh, Resumption(TokenFrom(p, transport), Announced(p')));
            if && (p.maxTable == 0 || p.maxTable == p'.maxTable)
               && p.maxBlocked <= p'.maxBlocked
               && (p.WebTransportEnabled() ==> p'.WebTransportEnabled())
               && (p.datagram ==> p'.datagram)
               && (p.connect ==> p'.connect)
            then v == Progress(Connected, Received(Announced(p')), p'.maxTable, p'.maxBlocked)
            else v.state == Closing
  {
    WithinLimits(p);
    WithinLimits(p');
    Resumed(TokenFrom(p, transport), Announced(p'));
    ClientAccepts(p, p');
  }

  lemma WithinLimits(p: Parameters)
    requires p.Valid()
    ensures QpackLimits(AfterResumption(p)) && QpackLimits(Announced(p))
    ensures Get(Announced(p), MaxTableCapacity) == p.maxTable && Get(Announced(p), BlockedStreams) == p.maxBlocked
  {
    AnnouncedValues(p);
    assert Get(AfterResumption(p), MaxTableCapacity) == p.maxTable;
    assert Get(AfterResumption(p), BlockedStreams) == p.maxBlocked;
  }
}
