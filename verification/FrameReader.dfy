/** The frame reader: a state machine over incremental decoders that reads as many bytes as it is sure to
    need, and stops at the first complete frame.
 */
module FrameReaders {
  import opened Bits
  import opened Varint
  import opened Decoders
  import opened IncrementalDecoders
  import opened Transport
  import opened Frames

  /** These bytes are one varint with this value. */
  predicate Whole(s: seq<byte>, v: nat) {
    ParseVarint(s) == Some(Parsed(v, |s|))
  }

  /** x goes at most to the end of the varint that starts with g. */
  predicate WithinVarint(g: seq<byte>, x: seq<byte>) {
    if g == [] then |x| <= 1 else |g| + |x| <= SizeOf(g[0])
  }

  lemma VarintQuiet(g: seq<byte>, x: seq<byte>, k: nat)
    requires WithinVarint(g, x) && 0 < k < |x|
    ensures ParseVarint(g + x[..k]) == None
  {
  }

  /** A frame of which only the type, or a part of it, is there. */
  lemma StatusType(g: seq<byte>)
    requires ParseVarint(g).Some? ==> ParseVarint(g).value.size == |g|
    ensures ParseVarint(g) == None ==> FrameStatus(g) == Incomplete
    ensures ParseVarint(g).Some? ==>
              FrameStatus(g) == if ReservedType(ParseVarint(g).value.value) then Bad(HttpFrameUnexpected) else Incomplete
  {
  }

  lemma StatusLength(tb: seq<byte>, t: nat, g: seq<byte>)
    requires Whole(tb, t) && !ReservedType(t)
    ensures FrameStatus(tb + g)
         == match ParseVarint(g)
            case None => Incomplete
            case Some(l) => PayloadStatus(t, l.value, g[l.size..])
  {
    ParsePrefix(tb, g);
    assert (tb + g)[|tb|..] == g;
  }

  lemma StatusPayload(tb: seq<byte>, t: nat, lb: seq<byte>, l: nat, p: seq<byte>)
    requires Whole(tb, t) && !ReservedType(t) && Whole(lb, l)
    ensures FrameStatus(tb + lb + p) == PayloadStatus(t, l, p)
  {
    StatusLength(tb, t, lb + p);
    ParsePrefix(lb, p);
    assert (lb + p)[|lb|..] == p;
    ConcatAssoc(tb, lb, p);
  }

  lemma TypeQuiet(g: seq<byte>, x: seq<byte>)
    requires WithinVarint(g, x)
    ensures Quiet(g, x)
  {
  }

  lemma LengthQuiet(tb: seq<byte>, t: nat, g: seq<byte>, x: seq<byte>)
    requires Whole(tb, t) && !ReservedType(t) && WithinVarint(g, x)
    ensures Quiet(tb + g, x)
  {
    forall k | 0 < k < |x|
      ensures FrameStatus(tb + g + x[..k]) == Incomplete
    {
      VarintQuiet(g, x, k);
      StatusLength(tb, t, g + x[..k]);
      ConcatAssoc(tb, g, x[..k]);
    }
  }

  lemma PayloadQuiet(tb: seq<byte>, t: nat, lb: seq<byte>, l: nat, p: seq<byte>, x: seq<byte>)
    requires Whole(tb, t) && !ReservedType(t) && Whole(lb, l) && t != DATA
    requires KnownType(t) ==> l <= MaxFrameData(t)
    requires |p| + |x| <= l
    ensures Quiet(tb + lb + p, x)
  {
    forall k | 0 < k < |x|
      ensures FrameStatus(tb + lb + p + x[..k]) == Incomplete
    {
      StatusPayload(tb, t, lb, l, p + x[..k]);
      ConcatAssoc(tb + lb, p, x[..k]);
    }
  }

  /** A frame of which exactly the type and the length are there. */
  lemma StatusHeader(tb: seq<byte>, t: nat, lb: seq<byte>, l: nat)
    requires Whole(tb, t) && !ReservedType(t) && Whole(lb, l)
    ensures FrameStatus(tb + lb) == PayloadStatus(t, l, [])
  {
    StatusPayload(tb, t, lb, l, []);
    assert tb + lb + [] == tb + lb;
  }

  /** What taking in bytes up to `all` means: more is needed, or a frame is complete and the reader is
      ready for the next, or reading fails. */
  predicate Matches(s: Status, all: seq<byte>, r: Res<Option<Frame>>, got: seq<byte>) {
    match s
    case Incomplete => r == Ok(None) && got == all
    case Skipped => r == Ok(None) && got == []
    case Complete(f) => r == Ok(Some(f)) && got == []
    case Bad(e) => r == Err(e)
  }

  /** What feeding data to a reader means. */
  ghost predicate Fed(got: seq<byte>, data: seq<byte>, o: Res<Option<Frame>>, got': seq<byte>) {
    if data == [] then o == Ok(None) && got' == got
    else Quiet(got, data) && Matches(FrameStatus(got + data), got + data, o, got')
  }

  datatype ReaderState =
    | GetType(typeDecoder: IncrementalDecoderUint)
    | GetLength(lengthDecoder: IncrementalDecoderUint)
    | GetData(dataDecoder: IncrementalDecoderBuffer)
    | DischargeData(ignoreDecoder: IncrementalDecoderIgnore)
  {
    ghost function Object(): object {
      match this
      case GetType(d) => d
      case GetLength(d) => d
      case GetData(d) => d
      case DischargeData(d) => d
    }
  }

  class FrameReader {
    var state: ReaderState
    var frameType: nat
    var frameLen: nat
    // The bytes of the current frame: its type, its length, and all of them.
    ghost var typeBytes: seq<byte>
    ghost var lenBytes: seq<byte>
    ghost var got: seq<byte>

    ghost predicate TypeKnown()
      reads this
    {
      Whole(typeBytes, frameType) && !ReservedType(frameType)
    }

    ghost predicate LengthKnown()
      reads this
    {
      TypeKnown() && Whole(lenBytes, frameLen)
    }

    ghost predicate Valid()
      reads this, state.Object()
    {
      state.Object() != this &&
      match state
      case GetType(d) => d.Valid() && d.remaining != Some(0) && got == d.got
      case GetLength(d) => d.Valid() && d.remaining != Some(0) && TypeKnown() && got == typeBytes + d.got
      case GetData(d) =>
        && d.Valid() && d.remaining > 0 && d.size == frameLen
        && LengthKnown() && got == typeBytes + lenBytes + d.got
        && KnownType(frameType) && frameType != DATA && frameLen <= MaxFrameData(frameType)
      case DischargeData(d) =>
        && 0 < d.remaining <= frameLen && LengthKnown() && !KnownType(frameType)
        && |got| == |typeBytes| + |lenBytes| + (frameLen - d.remaining) && typeBytes + lenBytes <= got
    }

    constructor ()
      ensures Valid() && got == [] && fresh(state.Object()) && state.GetType?
    {
      var d := new IncrementalDecoderUint();
      state := GetType(d);
      frameType, frameLen, got, typeBytes, lenBytes := 0, 0, [], [], [];
    }

    /** A reader for a stream whose first frame type has been read already. */
    constructor WithType(t: varint)
      requires !ReservedType(t)
      ensures Valid() && got == EncodeVarint(t) && fresh(state.Object())
    {
      var d := new IncrementalDecoderUint();
      state := GetLength(d);
      frameType, frameLen, got, typeBytes, lenBytes := t, 0, EncodeVarint(t), EncodeVarint(t), [];
      new;
      VarintRoundTrip(t, []);
      assert EncodeVarint(t) + [] == EncodeVarint(t);
    }

    /** The bytes that are certainly needed. */
    function MinRemaining(): (n: nat)
      requires Valid()
      reads this, state.Object()
      ensures n > 0
    {
      match state
      case GetType(d) => d.MinRemaining()
      case GetLength(d) => d.MinRemaining()
      case GetData(d) => d.remaining
      case DischargeData(d) => d.remaining
    }

    predicate DecodingInProgress()
      requires Valid()
      reads this, state.Object()
    {
      if state.GetType? then state.typeDecoder.remaining.Some? else true
    }

    lemma InProgressMeans()
      requires Valid()
      ensures DecodingInProgress() <==> got != []
    {
    }

    method Reset()
      modifies this
      ensures Valid() && got == [] && fresh(state.Object()) && frameType == old(frameType)
    {
      var d := new IncrementalDecoderUint();
      state := GetType(d);
      got := [];
    }

    method ConsumeType(x: seq<byte>) returns (r: Res<Option<Frame>>)
      requires Valid() && state.GetType? && 0 < |x| <= MinRemaining()
      modifies this, state.Object()
      ensures r.Ok? ==> Valid()
      ensures Matches(FrameStatus(old(got) + x), old(got) + x, r, got)
      ensures Quiet(old(got), x)
      ensures state.Object() == old(state.Object()) || fresh(state.Object())
    {
      TypeQuiet(got, x);
      var v := TakeType(x);
      StatusType(got);
      if v.None? {
        return Ok(None);
      }
      if ReservedType(v.value) {
        return Err(HttpFrameUnexpected);
      }
      TypeDecoded(v.value);
      r := Ok(None);
    }

    method TakeType(x: seq<byte>) returns (v: Option<nat>)
      requires Valid() && state.GetType? && 0 < |x| <= MinRemaining()
      modifies this`got, state.Object()
      ensures got == old(got) + x
      ensures v.None? ==> Valid() && ParseVarint(got) == None
      ensures v.Some? ==> Whole(got, v.value)
    {
      var d := state.typeDecoder;
      v := d.ConsumePiece(x);
      got := got + x;
    }

    method TypeDecoded(t: nat)
      requires Whole(got, t) && !ReservedType(t)
      modifies this
      ensures Valid() && got == old(got) && fresh(state.Object())
    {
      frameType, typeBytes := t, got;
      var next := new IncrementalDecoderUint();
      state := GetLength(next);
      assert typeBytes + next.got == got;
    }

    method ConsumeLength(x: seq<byte>) returns (r: Res<Option<Frame>>)
      requires Valid() && state.GetLength? && 0 < |x| <= MinRemaining()
      modifies this, state.Object()
      ensures r.Ok? ==> Valid()
      ensures Matches(FrameStatus(old(got) + x), old(got) + x, r, got)
      ensures Quiet(old(got), x)
      ensures state.Object() == old(state.Object()) || fresh(state.Object())
    {
      ghost var g := state.lengthDecoder.got;
      LengthQuiet(typeBytes, frameType, g, x);
      StatusLength(typeBytes, frameType, g + x);
      ConcatAssoc(typeBytes, g, x);
      var v := TakeLength(x);
      if v.None? {
        return Ok(None);
      }
      StatusHeader(typeBytes, frameType, lenBytes, v.value);
      r := FrameLengthDecoded(v.value);
    }

    method TakeLength(x: seq<byte>) returns (v: Option<nat>)
      requires Valid() && state.GetLength? && 0 < |x| <= MinRemaining()
      modifies this`got, this`lenBytes, state.Object()
      ensures got == old(got) + x && TypeKnown()
      ensures v.None? ==> Valid() && ParseVarint(old(state.lengthDecoder.got) + x) == None
      ensures v.Some? ==>
                Whole(lenBytes, v.value) && lenBytes == old(state.lengthDecoder.got) + x && got == typeBytes + lenBytes
    {
      var d := state.lengthDecoder;
      ConcatAssoc(typeBytes, d.got, x);
      v := d.ConsumePiece(x);
      got := got + x;
      if v.Some? {
        lenBytes := d.got;
      }
    }

    method FrameLengthDecoded(len: nat) returns (r: Res<Option<Frame>>)
      requires TypeKnown() && Whole(lenBytes, len) && got == typeBytes + lenBytes
      modifies this
      ensures r.Ok? ==> Valid()
      ensures Matches(PayloadStatus(old(frameType), len, []), old(got), r, got)
      ensures r.Ok? ==> fresh(state.Object())
      ensures r.Err? ==> state == old(state)
    {
      frameLen := len;
      if frameType == DATA {
        Reset();
        return Ok(Some(Data(len)));
      }
      if KnownType(frameType) {
        if len == 0 {
          var empty: seq<byte> := [];
          assert empty[..0] == empty;
          r := FrameDataDecoded(empty);
          return;
        }
        if len > MaxFrameData(frameType) {
          return Err(HttpExcessiveLoad);
        }
        var b := new IncrementalDecoderBuffer(len);
        state := GetData(b);
        assert got + [] == got;
      } else if len == 0 {
        Reset();
      } else {
        var i := new IncrementalDecoderIgnore(len);
        state := DischargeData(i);
      }
      r := Ok(None);
    }

    method ConsumeData(x: seq<byte>) returns (r: Res<Option<Frame>>)
      requires Valid() && state.GetData? && 0 < |x| <= MinRemaining()
      modifies this, state.Object()
      ensures r.Ok? ==> Valid()
      ensures Matches(FrameStatus(old(got) + x), old(got) + x, r, got)
      ensures Quiet(old(got), x)
      ensures state.Object() == old(state.Object()) || fresh(state.Object())
    {
      var b := state.dataDecoder;
      ghost var p, head := b.got, typeBytes + lenBytes;
      PayloadQuiet(typeBytes, frameType, lenBytes, frameLen, p, x);
      StatusPayload(typeBytes, frameType, lenBytes, frameLen, p + x);
      ConcatAssoc(head, p, x);
      var data := b.ConsumePiece(x);
      got := got + x;
      if data.None? {
        return Ok(None);
      }
      assert data.value == p + x && (p + x)[..frameLen] == p + x;
      r := FrameDataDecoded(data.value);
    }

    method FrameDataDecoded(data: seq<byte>) returns (r: Res<Option<Frame>>)
      requires KnownType(frameType) && frameType != DATA
      modifies this
      ensures r.Ok? ==> Valid() && fresh(state.Object())
      ensures r.Err? ==> state == old(state)
      ensures Matches(DecodePayload(old(frameType), data), old(got), r, got)
    {
      var s := DecodePayload(frameType, data);
      if s.Bad? {
        return Err(s.error);
      }
      Reset();
      r := Ok(Some(s.frame));
    }

    method ConsumeSkipped(x: seq<byte>) returns (r: Res<Option<Frame>>)
      requires Valid() && state.DischargeData? && 0 < |x| <= MinRemaining()
      modifies this, state.Object()
      ensures r.Ok? ==> Valid()
      ensures Matches(FrameStatus(old(got) + x), old(got) + x, r, got)
      ensures Quiet(old(got), x)
      ensures state.Object() == old(state.Object()) || fresh(state.Object())
    {
      var d := state.ignoreDecoder;
      ghost var head := typeBytes + lenBytes;
      ghost var p := got[|head|..];
      assert got == head + p;
      PayloadQuiet(typeBytes, frameType, lenBytes, frameLen, p, x);
      StatusPayload(typeBytes, frameType, lenBytes, frameLen, p + x);
      ConcatAssoc(head, p, x);
      var input := new Decoder(x);
      var done := d.Consume(input);
      if done {
        Reset();
      } else {
        got := got + x;
      }
      r := Ok(None);
    }

    method Consume(x: seq<byte>) returns (r: Res<Option<Frame>>)
      requires Valid() && 0 < |x| <= MinRemaining()
      modifies this, state.Object()
      ensures r.Ok? ==> Valid()
      ensures Matches(FrameStatus(old(got) + x), old(got) + x, r, got)
      ensures Quiet(old(got), x)
      ensures state.Object() == old(state.Object()) || fresh(state.Object())
    {
      match state {
        case GetType(_) => r := ConsumeType(x);
        case GetLength(_) => r := ConsumeLength(x);
        case GetData(_) => r := ConsumeData(x);
        case DischargeData(_) => r := ConsumeSkipped(x);
      }
    }

    /** Read no more bytes than are certainly needed; `stuck` if the transport has nothing more to say. */
    method Fetch(tr: RecvEnd) returns (stuck: bool, data: seq<byte>, fin: bool)
      requires Valid() && tr.Valid() && tr != state.Object()
      modifies tr
      ensures Valid() && |data| <= MinRemaining()
      ensures tr.Read(data) && stuck == old(tr.finRead)
      ensures stuck ==> tr.finRead
      ensures !stuck ==> fin == tr.finRead == (tr.finArrived && tr.avail == [])
      ensures data == [] ==> stuck || tr.avail == []
    {
      var toRead := Min(MinRemaining(), MAX_READ_SIZE);
      var res := tr.Recv(toRead);
      if res.None? {
        return true, [], false;
      }
      return false, res.value.0, res.value.1;
    }

    method Feed(data: seq<byte>) returns (o: Res<Option<Frame>>)
      requires Valid() && |data| <= MinRemaining()
      modifies this, state.Object()
      ensures o.Ok? ==> Valid()
      ensures Fed(old(got), data, o, got)
      ensures state.Object() == old(state.Object()) || fresh(state.Object())
    {
      o := Ok(None);
      if data != [] {
        o := Consume(data);
      }
    }

    /** One turn of the loop below; None means to go on. */
    method ReceiveOnce(tr: RecvEnd) returns (r: Option<Res<(Option<Frame>, bool)>>, ghost d: seq<byte>)
      requires Valid() && tr.Valid() && tr != state.Object()
      modifies this, state.Object(), tr
      ensures tr.Read(d) && (r.None? || r.value.Ok? ==> Valid())
      ensures state.Object() == old(state.Object()) || fresh(state.Object())
      ensures r.None? ==> d != [] && ReadRun(old(got), d) == Reading(got) && tr.finRead == old(tr.finRead)
      ensures r.Some? ==> Received(ReadRun(old(got), d), r.value, got, tr.finRead)
      ensures r == Some(Ok((None, false))) ==> (old(tr.finRead) || tr.Dry()) && tr.finRead == old(tr.finRead)
    {
      var stuck, data, fin := Fetch(tr);
      d := data;
      if stuck {
        return Some(Ok((None, false))), d;
      }
      var o := Feed(data);
      Extend(old(got), [], data, o, got);
      assert [] + data == data;
      if o.Err? {
        return Some(Err(o.error)), d;
      }
      if o.value.Some? {
        return Some(Ok((o.value, fin))), d;
      }
      if fin {
        InProgressMeans();
        if DecodingInProgress() {
          return Some(Err(HttpFrame)), d;
        }
        return Some(Ok((None, true))), d;
      }
      r := if data == [] then Some(Ok((None, false))) else None;
    }

    /** Read until a frame is complete, the bytes run out, or the stream ends. `c` is what was read. */
    method Receive(tr: RecvEnd) returns (r: Res<(Option<Frame>, bool)>, ghost c: seq<byte>)
      requires Valid() && tr.Valid() && tr != state.Object()
      modifies this, state.Object(), tr
      ensures tr.Read(c) && (r.Ok? ==> Valid())
      ensures state.Object() == old(state.Object()) || fresh(state.Object())
      ensures Received(ReadRun(old(got), c), r, got, tr.finRead)
      ensures r == Ok((None, false)) ==> (old(tr.finRead) || tr.Dry()) && tr.finRead == old(tr.finRead)
    {
      c := [];
      while true
        invariant Valid() && tr.Read(c)
        invariant state.Object() == old(state.Object()) || fresh(state.Object())
        invariant ReadRun(old(got), c) == Reading(got)
        invariant tr.finRead == old(tr.finRead)
        decreases |tr.avail|
      {
        ghost var d;
        var once;
        once, d := ReceiveOnce(tr);
        ReadOn(old(got), c, d);
        MoreRead(old(tr.consumed), c, d, tr.avail);
        c := c + d;
        if once.Some? {
          return once.value, c;
        }
      }
    }
  }

  /** How the result of a call to the reader follows from the bytes it read. */
  predicate Received(run: ReadOutcome, r: Res<(Option<Frame>, bool)>, got: seq<byte>, finRead: bool) {
    match r
    case Ok((Some(f), fin)) => run == Output(f, []) && got == [] && fin == finRead
    case Ok((None, fin)) => run == Reading(got) && (fin ==> got == [] && finRead)
    case Err(e) => run == Stopped(e, []) || (e == HttpFrame && finRead && run.Reading? && run.got != [])
  }

  function Outcome(o: Res<Option<Frame>>, got: seq<byte>): (r: ReadOutcome) {
    match o
    case Err(e) => Stopped(e, [])
    case Ok(Some(f)) => Output(f, [])
    case Ok(None) => Reading(got)
  }

  lemma MatchesOutcome(s: Status, all: seq<byte>, o: Res<Option<Frame>>, got: seq<byte>)
    requires Matches(s, all, o, got)
    ensures Classify(s, all) == Outcome(o, got)
    ensures o.Ok? && o.value.Some? ==> got == []
  {
  }

  lemma ReadOn(got: seq<byte>, c: seq<byte>, d: seq<byte>)
    requires ReadRun(got, c).Reading?
    ensures ReadRun(got, c + d) == ReadRun(ReadRun(got, c).got, d)
  {
    ReadRunConcat(got, c, d);
  }

  lemma MoreRead(consumed: seq<byte>, c: seq<byte>, d: seq<byte>, rest: seq<byte>)
    ensures c + (d + rest) == (c + d) + rest && (consumed + c) + d == consumed + (c + d)
  {
  }

  lemma Extend(got: seq<byte>, c: seq<byte>, data: seq<byte>, o: Res<Option<Frame>>, got': seq<byte>)
    requires ReadRun(got, c).Reading? && Fed(ReadRun(got, c).got, data, o, got')
    ensures ReadRun(got, c + data) == Outcome(o, got')
    ensures o.Ok? && o.value.Some? ==> got' == []
  {
    var g := ReadRun(got, c).got;
    if data == [] {
      assert c + data == c;
    } else {
      ReadRunConcat(got, c, data);
      ReadRunQuiet(g, data);
      MatchesOutcome(FrameStatus(g + data), g + data, o, got');
    }
  }
}
