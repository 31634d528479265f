/** HTTP/3 SETTINGS (section 7.2.4 of RFC 9114): the list, its wire form, and the check that a server makes
    on the settings it saved in a session ticket before accepting 0-RTT.
 */
module Settings {
  import opened Bits
  import opened Varint
  import opened Decoders
  import opened Encoders

  datatype SettingType =
    | MaxHeaderListSize
    | MaxTableCapacity
    | BlockedStreams
    | EnableWebTransport
    | EnableH3Datagram
    | EnableConnect

  datatype Setting = Setting(kind: SettingType, value: nat)

  datatype Error = HttpSettings | NotEnoughData
  datatype Res<+T> = Ok(value: T) | Err(error: Error)

  const ID_MAX_HEADER_LIST_SIZE := 0x6
  const ID_MAX_TABLE_CAPACITY := 0x1
  const ID_BLOCKED_STREAMS := 0x7
  const ID_WEB_TRANSPORT := 0x2b60_3742
  const ID_H3_DATAGRAM_DRAFT04 := 0x00ff_d277
  const ID_H3_DATAGRAM := 0x33
  const ID_CONNECT_PROTOCOL := 0x08

  predicate Reserved(id: nat) {
    2 <= id <= 5
  }

  function Default(t: SettingType): nat {
    if t == MaxHeaderListSize then 0x4000_0000_0000_0000 else 0
  }

  /** The first entry of the type decides. */
  function Get(s: seq<Setting>, t: SettingType): nat {
    if s == [] then Default(t)
    else if s[0].kind == t then s[0].value
    else Get(s[1..], t)
  }

  predicate Contains(s: seq<Setting>, t: SettingType) {
    exists i :: 0 <= i < |s| && s[i].kind == t
  }

  // ----- Encoding -----

  function Pair(id: varint, value: varint): (r: seq<byte>) {
    EncodeVarint(id) + EncodeVarint(value)
  }

  function IdOf(t: SettingType): varint {
    match t
    case MaxHeaderListSize => ID_MAX_HEADER_LIST_SIZE
    case MaxTableCapacity => ID_MAX_TABLE_CAPACITY
    case BlockedStreams => ID_BLOCKED_STREAMS
    case EnableWebTransport => ID_WEB_TRANSPORT
    case EnableH3Datagram => ID_H3_DATAGRAM_DRAFT04
    case EnableConnect => ID_CONNECT_PROTOCOL
  }

  /** The pairs written for one setting: datagram and CONNECT support only when they are on, and
      datagram support under its draft identifier as well. */
  function PairsOf(s: Setting): (r: seq<(varint, varint)>)
    requires s.value <= MAX_VARINT
  {
    match s.kind
    case EnableH3Datagram =>
      if s.value == 1 then [(ID_H3_DATAGRAM_DRAFT04, 1), (ID_H3_DATAGRAM, 1)] else []
    case EnableConnect => if s.value == 1 then [(ID_CONNECT_PROTOCOL, 1)] else []
    case _ => [(IdOf(s.kind), s.value)]
  }

  /** Values that fit a varint. */
  ghost predicate Encodable(s: seq<Setting>) {
    forall i :: 0 <= i < |s| ==> s[i].value <= MAX_VARINT
  }

  function AllPairs(s: seq<Setting>): (r: seq<(varint, varint)>)
    requires Encodable(s)
  {
    if s == [] then [] else PairsOf(s[0]) + AllPairs(s[1..])
  }

  function PairBytes(ps: seq<(varint, varint)>): (r: seq<byte>) {
    if ps == [] then [] else Pair(ps[0].0, ps[0].1) + PairBytes(ps[1..])
  }

  // ----- Decoding -----

  /** One pair taken into the list. */
  function TakePair(acc: seq<Setting>, id: nat, value: nat): (r: Res<seq<Setting>>) {
    if id == ID_MAX_HEADER_LIST_SIZE then Ok(acc + [Setting(MaxHeaderListSize, value)])
    else if id == ID_MAX_TABLE_CAPACITY then Ok(acc + [Setting(MaxTableCapacity, value)])
    else if id == ID_BLOCKED_STREAMS then Ok(acc + [Setting(BlockedStreams, value)])
    else if id == ID_WEB_TRANSPORT then
      if value > 1 then Err(HttpSettings) else Ok(acc + [Setting(EnableWebTransport, value)])
    else if id == ID_H3_DATAGRAM_DRAFT04 || id == ID_H3_DATAGRAM then
      if value > 1 then Err(HttpSettings)
      else if Contains(acc, EnableH3Datagram) then Ok(acc)
      else Ok(acc + [Setting(EnableH3Datagram, value)])
    else if id == ID_CONNECT_PROTOCOL then
      if value > 1 then Err(HttpSettings) else Ok(acc + [Setting(EnableConnect, value)])
    else Ok(acc)
  }

  /** The identifier and the value at the front of the bytes, each of which may be cut short. */
  function NextPair(b: seq<byte>): (Option<Parsed>, Option<Parsed>) {
    var t := ParseVarint(b);
    (t, ParseVarint(if t.Some? then b[t.value.size..] else b))
  }

  /** The reference decoder: take pairs until the bytes run out. */
  function DecodeAll(b: seq<byte>, acc: seq<Setting>): (r: Res<seq<Setting>>)
    decreases |b|
  {
    if b == [] then Ok(acc)
    else
      var (t, v) := NextPair(b);
      if t.Some? && Reserved(t.value.value) then Err(HttpSettings)
      else if t.None? || v.None? then Err(NotEnoughData)
      else
        var next := TakePair(acc, t.value.value, v.value.value);
        if next.Err? then next else DecodeAll(b[t.value.size..][v.value.size..], next.value)
  }

  class HSettings {
    var settings: seq<Setting>

    constructor (s: seq<Setting>)
      ensures settings == s
    {
      settings := s;
    }

    function GetSetting(t: SettingType): nat
      reads this
    {
      Get(settings, t)
    }

    method DecodeFrameContents(dec: Decoder) returns (r: Res<()>)
      requires dec.Valid()
      modifies this, dec
      ensures dec.Valid()
      ensures match DecodeAll(old(dec.Rest()), old(settings))
              case Ok(s) => r == Ok(()) && settings == s && dec.Rest() == []
              case Err(e) => r == Err(e)
    {
      while dec.Remaining() > 0
        invariant dec.Valid()
        invariant DecodeAll(dec.Rest(), settings) == DecodeAll(old(dec.Rest()), old(settings))
        decreases dec.Remaining()
      {
        r := DecodePair(dec);
        if r.Err? {
          return;
        }
      }
      r := Ok(());
    }

    method ReadPair(dec: Decoder) returns (t: Option<nat>, v: Option<nat>)
      requires dec.Valid()
      modifies dec
      ensures dec.Valid()
      ensures var (p, q) := NextPair(old(dec.Rest()));
              && (t == if p.None? then None else Some(p.value.value))
              && (v == if q.None? then None else Some(q.value.value))
              && (p.Some? && q.Some? ==> dec.Rest() == old(dec.Rest())[p.value.size..][q.value.size..])
      ensures t.Some? && v.Some? ==> dec.Remaining() < old(dec.Remaining())
    {
      ghost var b := dec.Rest();
      t := dec.DecodeVarint();
      assert dec.Rest() == if t.Some? then b[ParseVarint(b).value.size..] else b;
      v := dec.DecodeVarint();
    }

    method DecodePair(dec: Decoder) returns (r: Res<()>)
      requires dec.Valid() && dec.Remaining() > 0
      modifies this, dec
      ensures dec.Valid()
      ensures r.Ok? ==>
                && DecodeAll(dec.Rest(), settings) == DecodeAll(old(dec.Rest()), old(settings))
                && dec.Remaining() < old(dec.Remaining())
      ensures r.Err? ==> DecodeAll(old(dec.Rest()), old(settings)) == Err(r.error)
    {
      var t, v := ReadPair(dec);
      if t.Some? && Reserved(t.value) {
        return Err(HttpSettings);
      }
      if t.None? || v.None? {
        return Err(NotEnoughData);
      }
      var next := TakePair(settings, t.value, v.value);
      if next.Err? {
        return Err(next.error);
      }
      settings := next.value;
      r := Ok(());
    }
  }

  // ----- Encoding, then decoding -----

  ghost predicate NoReserved(ps: seq<(varint, varint)>) {
    forall i :: 0 <= i < |ps| ==> !Reserved(ps[i].0)
  }

  function TakeAll(acc: seq<Setting>, ps: seq<(varint, varint)>): (r: Res<seq<Setting>>)
    decreases ps
  {
    if ps == [] then Ok(acc)
    else
      var next := TakePair(acc, ps[0].0, ps[0].1);
      if next.Err? then next else TakeAll(next.value, ps[1..])
  }

  lemma NextPairOf(id: varint, value: varint, rest: seq<byte>)
    ensures var b := Pair(id, value) + rest;
            var (t, v) := NextPair(b);
            && t == Some(Parsed(id, VarintLen(id)))
            && v == Some(Parsed(value, VarintLen(value)))
            && b[t.value.size..][v.value.size..] == rest
  {
    var x, y := EncodeVarint(id), EncodeVarint(value);
    ConcatAssoc(x, y, rest);
    VarintRoundTrip(id, y + rest);
    VarintRoundTrip(value, rest);
    assert (x + (y + rest))[|x|..] == y + rest;
    assert (y + rest)[|y|..] == rest;
  }

  /** Decoding what was written takes the pairs back one by one. */
  lemma {:induction false} DecodePairs(ps: seq<(varint, varint)>, acc: seq<Setting>)
    requires NoReserved(ps)
    ensures DecodeAll(PairBytes(ps), acc) == TakeAll(acc, ps)
    decreases ps
  {
    if ps != [] {
      var rest := PairBytes(ps[1..]);
      NextPairOf(ps[0].0, ps[0].1, rest);
      var next := TakePair(acc, ps[0].0, ps[0].1);
      if next.Ok? {
        DecodePairs(ps[1..], next.value);
      }
    }
  }

  /** Good pairs are behind us. */
  lemma {:induction false} GoodPairs(ps: seq<(varint, varint)>, rest: seq<byte>, acc: seq<Setting>)
    requires NoReserved(ps) && TakeAll(acc, ps).Ok?
    ensures DecodeAll(PairBytes(ps) + rest, acc) == DecodeAll(rest, TakeAll(acc, ps).value)
    decreases ps
  {
    if ps == [] {
      assert PairBytes(ps) + rest == rest;
    } else {
      var more := PairBytes(ps[1..]) + rest;
      ConcatAssoc(Pair(ps[0].0, ps[0].1), PairBytes(ps[1..]), rest);
      NextPairOf(ps[0].0, ps[0].1, more);
      GoodPairs(ps[1..], rest, TakePair(acc, ps[0].0, ps[0].1).value);
    }
  }

  lemma DecodeFirst(id: varint, value: varint, rest: seq<byte>, acc: seq<Setting>)
    ensures DecodeAll(Pair(id, value) + rest, acc)
         == if Reserved(id) then Err(HttpSettings)
            else
              var next := TakePair(acc, id, value);
              if next.Err? then next else DecodeAll(rest, next.value)
  {
    NextPairOf(id, value, rest);
  }

  /** The identifiers of HTTP/2 are refused, and so is a switch that is neither on nor off. */
  lemma BadPair(id: varint, value: varint, rest: seq<byte>, acc: seq<Setting>)
    requires 2 <= id <= 5 || ((id == 0x8 || id == 0x33 || id == 0xff_d277 || id == 0x2b60_3742) && value > 1)
    ensures DecodeAll(Pair(id, value) + rest, acc) == Err(HttpSettings)
  {
    DecodeFirst(id, value, rest, acc);
  }

  /** They are refused wherever they are in the frame. */
  lemma BadFrame(ps: seq<(varint, varint)>, id: varint, value: varint, rest: seq<byte>)
    requires NoReserved(ps) && TakeAll([], ps).Ok?
    requires 2 <= id <= 5 || ((id == 0x8 || id == 0x33 || id == 0xff_d277 || id == 0x2b60_3742) && value > 1)
    ensures DecodeAll(PairBytes(ps) + (Pair(id, value) + rest), []) == Err(HttpSettings)
  {
    GoodPairs(ps, Pair(id, value) + rest, []);
    BadPair(id, value, rest, TakeAll([], ps).value);
  }

  /** Any other unknown identifier is ignored. */
  lemma UnknownPair(id: varint, value: varint, rest: seq<byte>, acc: seq<Setting>)
    requires !KnownId(id) && !(2 <= id <= 5)
    ensures DecodeAll(Pair(id, value) + rest, acc) == DecodeAll(rest, acc)
  {
    DecodeFirst(id, value, rest, acc);
  }

  /** What the known identifiers stand for; of the two identifiers for datagrams the first one that comes
      decides. */
  lemma KnownPair(id: varint, value: varint, rest: seq<byte>, acc: seq<Setting>)
    requires KnownId(id) && (id == 0x1 || id == 0x6 || id == 0x7 || value <= 1)
    ensures DecodeAll(Pair(id, value) + rest, acc)
         == if KindOf(id) == EnableH3Datagram && Contains(acc, EnableH3Datagram) then DecodeAll(rest, acc)
            else DecodeAll(rest, acc + [Setting(KindOf(id), value)])
  {
    DecodeFirst(id, value, rest, acc);
  }

  ghost predicate KnownId(id: varint) {
    id == 0x1 || id == 0x6 || id == 0x7 || id == 0x8 || id == 0x33 || id == 0xff_d277 || id == 0x2b60_3742
  }

  ghost function KindOf(id: varint): SettingType
    requires KnownId(id)
  {
    if id == 0x1 then MaxTableCapacity
    else if id == 0x6 then MaxHeaderListSize
    else if id == 0x7 then BlockedStreams
    else if id == 0x8 then EnableConnect
    else if id == 0x2b60_3742 then EnableWebTransport
    else EnableH3Datagram
  }

  /** A frame that ends within a pair is refused. */
  lemma CutPair(id: varint, value: varint, n: nat, acc: seq<Setting>)
    requires 0 < n < |Pair(id, value)| && !(2 <= id <= 5)
    ensures DecodeAll(Pair(id, value)[..n], acc) == Err(NotEnoughData)
  {
    var x, y := EncodeVarint(id), EncodeVarint(value);
    var b := Pair(id, value)[..n];
    if n < |x| {
      assert b == x[..n];
      CutVarint(id, n);
    } else {
      assert b == x + y[..n - |x|];
      VarintRoundTrip(id, y[..n - |x|]);
      assert b[|x|..] == y[..n - |x|];
      CutVarint(value, n - |x|);
    }
  }

  lemma CutVarint(v: varint, n: nat)
    requires n < |EncodeVarint(v)|
    ensures ParseVarint(EncodeVarint(v)[..n]) == None
  {
    VarintRoundTrip(v, []);
    assert EncodeVarint(v) + [] == EncodeVarint(v);
  }

  /** Settings of different types, with the on/off ones at most one. */
  ghost predicate Legal(s: seq<Setting>) {
    && (forall i :: 0 <= i < |s| ==> LegalSetting(s[i]))
    && (forall i, j :: 0 <= i < j < |s| ==> s[i].kind != s[j].kind)
  }

  predicate LegalSetting(s: Setting) {
    && s.value <= MAX_VARINT
    && (s.kind in {EnableWebTransport, EnableH3Datagram, EnableConnect} ==> s.value <= 1)
  }

  /** The settings that are written at all. */
  predicate Written(s: Setting) {
    s.kind in {EnableH3Datagram, EnableConnect} ==> s.value == 1
  }

  function Kept(s: seq<Setting>): (r: seq<Setting>) {
    if s == [] then [] else (if Written(s[0]) then [s[0]] else []) + Kept(s[1..])
  }

  lemma PairsTaken(s: Setting, acc: seq<Setting>, more: seq<(varint, varint)>)
    requires LegalSetting(s) && (s.kind == EnableH3Datagram ==> !Contains(acc, EnableH3Datagram))
    ensures NoReserved(PairsOf(s))
    ensures TakeAll(acc, PairsOf(s) + more) == TakeAll(acc + (if Written(s) then [s] else []), more)
  {
    var ps := PairsOf(s);
    if ps == [] {
      assert ps + more == more && acc + [] == acc;
    } else if |ps| == 1 {
      assert (ps + more)[1..] == more;
    } else {
      var acc' := acc + [Setting(EnableH3Datagram, 1)];
      assert acc'[|acc|].kind == EnableH3Datagram;
      assert (ps + more)[1..] == [ps[1]] + more && ([ps[1]] + more)[1..] == more;
    }
  }

  lemma {:induction false} PairsKept(s: seq<Setting>, acc: seq<Setting>)
    requires Legal(s) && (Contains(s, EnableH3Datagram) ==> !Contains(acc, EnableH3Datagram))
    ensures NoReserved(AllPairs(s)) && TakeAll(acc, AllPairs(s)) == Ok(acc + Kept(s))
    decreases s
  {
    if s == [] {
      assert acc + [] == acc;
    } else {
      var first, rest := s[0], s[1..];
      var acc' := acc + (if Written(first) then [first] else []);
      assert first.kind == EnableH3Datagram ==> Contains(s, EnableH3Datagram);
      PairsTaken(first, acc, AllPairs(rest));
      LegalTail(s);
      OnlyOneDatagram(s, acc, acc');
      PairsKept(rest, acc');
      NoReservedConcat(PairsOf(first), AllPairs(rest));
      ConcatAssoc(acc, if Written(first) then [first] else [], Kept(rest));
    }
  }

  lemma LegalTail(s: seq<Setting>)
    requires Legal(s) && s != []
    ensures Legal(s[1..])
  {
  }

  lemma NoReservedConcat(a: seq<(varint, varint)>, b: seq<(varint, varint)>)
    requires NoReserved(a) && NoReserved(b)
    ensures NoReserved(a + b)
  {
  }

  lemma OnlyOneDatagram(s: seq<Setting>, acc: seq<Setting>, acc': seq<Setting>)
    requires Legal(s) && s != [] && (Contains(s, EnableH3Datagram) ==> !Contains(acc, EnableH3Datagram))
    requires acc' == acc || acc' == acc + [s[0]]
    ensures Contains(s[1..], EnableH3Datagram) ==> !Contains(acc', EnableH3Datagram)
  {
  }

  lemma {:induction false} GetAbsent(s: seq<Setting>, t: SettingType)
    requires forall i :: 0 <= i < |s| ==> s[i].kind != t
    ensures Get(s, t) == Default(t)
  {
    if s != [] {
      GetAbsent(s[1..], t);
    }
  }

  lemma {:induction false} GetKept(s: seq<Setting>, t: SettingType)
    requires Legal(s)
    ensures Get(Kept(s), t) == Get(s, t)
  {
    if s != [] {
      LegalTail(s);
      GetKept(s[1..], t);
      if Written(s[0]) {
        assert Kept(s)[1..] == Kept(s[1..]);
      } else {
        assert Kept(s) == Kept(s[1..]);
        if s[0].kind == t {
          assert LegalSetting(s[0]);
          GetAbsent(s[1..], t);
        }
      }
    }
  }

  lemma {:induction false} KeptIn(s: seq<Setting>, x: Setting)
    requires x in Kept(s)
    ensures x in s
  {
    if s != [] {
      if x in Kept(s[1..]) {
        KeptIn(s[1..], x);
      }
    }
  }

  lemma {:induction false} KeptLegal(s: seq<Setting>)
    requires Legal(s)
    ensures Legal(Kept(s))
  {
    if s != [] {
      LegalTail(s);
      KeptLegal(s[1..]);
      forall x | x in Kept(s[1..])
        ensures x.kind != s[0].kind
      {
        KeptIn(s[1..], x);
        var j :| 0 <= j < |s[1..]| && s[1..][j] == x;
        assert s[j + 1] == x;
      }
    }
  }

  /** Datagram support is announced under the identifier of the draft as well. */
  lemma {:induction false} BothDatagramIds(s: seq<Setting>)
    requires Legal(s) && Get(s, EnableH3Datagram) == 1
    ensures (0x33, 1) in AllPairs(s) && (0xff_d277, 1) in AllPairs(s)
  {
    if s[0].kind == EnableH3Datagram {
      assert AllPairs(s)[0] == (0xff_d277, 1) && AllPairs(s)[1] == (0x33, 1);
    } else {
      LegalTail(s);
      BothDatagramIds(s[1..]);
    }
  }

  /** Writing legal settings and reading them back keeps every value that `get` returns. */
  lemma SettingsRoundTrip(s: seq<Setting>)
    requires Legal(s)
    ensures DecodeAll(PairBytes(AllPairs(s)), []) == Ok(Kept(s))
    ensures Legal(Kept(s)) && forall t :: Get(Kept(s), t) == Get(s, t)
  {
    PairsKept(s, []);
    DecodePairs(AllPairs(s), []);
    assert [] + Kept(s) == Kept(s);
    KeptLegal(s);
    forall t
      ensures Get(Kept(s), t) == Get(s, t)
    {
      GetKept(s, t);
    }
  }

  // ----- The frame contents, written through an encoder -----

  function PairOps(ps: seq<(varint, varint)>): (r: seq<Op>) {
    if ps == [] then [] else [VarintOp(ps[0].0), VarintOp(ps[0].1)] + PairOps(ps[1..])
  }

  lemma {:induction false} PairOpsWrite(ps: seq<(varint, varint)>, s: seq<byte>)
    ensures ApplyAll(PairOps(ps), s, None) == Some(s + PairBytes(ps))
    ensures AppendOnly(PairOps(ps))
    decreases ps
  {
    if ps == [] {
      assert s + [] == s;
    } else {
      var ops := PairOps(ps);
      var x, y := EncodeVarint(ps[0].0), EncodeVarint(ps[0].1);
      assert ops[0] == VarintOp(ps[0].0) && ops[1..][0] == VarintOp(ps[0].1);
      assert ops[1..][1..] == PairOps(ps[1..]);
      PairOpsWrite(ps[1..], s + x + y);
      assert ApplyAll(ops[1..], s + x, None) == ApplyAll(PairOps(ps[1..]), s + x + y, None);
      assert AppendOnly(ops[1..]);
      ConcatAssoc(s, x, y);
      ConcatAssoc(s, x + y, PairBytes(ps[1..]));
    }
  }

  /** The contents of a SETTINGS frame: the pairs behind their length. */
  function FrameContents(s: seq<Setting>): (r: seq<byte>)
    requires Encodable(s) && |PairBytes(AllPairs(s))| <= MAX_VARINT
  {
    EncodeVarint(|PairBytes(AllPairs(s))|) + PairBytes(AllPairs(s))
  }

  method EncodeFrameContents(s: seq<Setting>, enc: Encoder)
    requires Encodable(s) && |PairBytes(AllPairs(s))| <= MAX_VARINT
    requires enc.Valid() && enc.Room() == None
    modifies enc.buf.Repr()
    ensures enc.Kept(old(enc.Before())) && enc.AsRef() == old(enc.AsRef()) + FrameContents(s)
  {
    ghost var was, ops, body := enc.AsRef(), PairOps(AllPairs(s)), PairBytes(AllPairs(s));
    PairOpsWrite(AllPairs(s), was + [0]);
    VvecWithWrote(ops, was, body);
    enc.EncodeVvecWith(PairOps(AllPairs(s)));
  }

  // ----- Parameters and the 0-RTT check -----

  /** The local configuration, as far as SETTINGS go. */
  datatype Parameters = Parameters(
    maxTable: nat, maxBlocked: nat, webTransport: bool, connect: bool, datagram: bool,
    quicDatagram: bool, reliableReset: bool)
  {
    /** What the setters enforce: capacity below 2^30, 16-bit blocked streams, CONNECT with WebTransport. */
    predicate Valid() {
      maxTable < 0x4000_0000 && maxBlocked < 0x1_0000 && (webTransport ==> connect)
    }

    predicate WebTransportEnabled() {
      webTransport && datagram && quicDatagram && reliableReset
    }
  }

  function FromBool(b: bool): nat {
    if b then 1 else 0
  }

  function FromParameters(p: Parameters): (s: seq<Setting>) {
    [ Setting(MaxTableCapacity, p.maxTable),
      Setting(BlockedStreams, p.maxBlocked),
      Setting(EnableWebTransport, FromBool(p.WebTransportEnabled())),
      Setting(EnableH3Datagram, FromBool(p.datagram)),
      Setting(EnableConnect, FromBool(p.connect)) ]
  }

  function ParameterValue(p: Parameters, t: SettingType): nat {
    match t
    case MaxHeaderListSize => Default(MaxHeaderListSize)
    case MaxTableCapacity => p.maxTable
    case BlockedStreams => p.maxBlocked
    case EnableWebTransport => FromBool(p.WebTransportEnabled())
    case EnableH3Datagram => FromBool(p.datagram)
    case EnableConnect => FromBool(p.connect)
  }

  lemma FromParametersLegal(p: Parameters)
    requires p.Valid()
    ensures Legal(FromParameters(p))
    ensures forall t :: Get(FromParameters(p), t) == ParameterValue(p, t)
  {
    forall t
      ensures Get(FromParameters(p), t) == ParameterValue(p, t)
    {
      FromParametersGet(p, t);
    }
  }

  lemma FromParametersGet(p: Parameters, t: SettingType)
    ensures Get(FromParameters(p), t) == ParameterValue(p, t)
  {
    var s := FromParameters(p);
    GetAt(s, t, 0);
    GetAt(s, t, 1);
    GetAt(s, t, 2);
    GetAt(s, t, 3);
    GetAt(s, t, 4);
    assert s[5..] == [];
    assert s[0..] == s;
  }

  lemma GetAt(s: seq<Setting>, t: SettingType, i: nat)
    requires i < |s|
    ensures Get(s[i..], t) == if s[i].kind == t then s[i].value else Get(s[i + 1..], t)
  {
  }

  /** A connection announces WebTransport if everything that it needs is there. */
  lemma WebTransportAnnounced(p: Parameters)
    ensures Get(FromParameters(p), EnableWebTransport)
         == if p.webTransport && p.datagram && p.quicDatagram && p.reliableReset then 1 else 0
  {
    FromParametersGet(p, EnableWebTransport);
  }

  /** Without a value from the peer, no header list is too long, the QPACK table is empty, and nothing is switched
      on. */
  lemma DefaultValues(t: SettingType, length: varint)
    ensures length < Get([], MaxHeaderListSize)
    ensures t != MaxHeaderListSize ==> Get([], t) == 0
  {
  }

  datatype ZeroRttResult = Accept | Reject | Fail

  const ZERO_RTT_VERSION := 1

  function SavedPairs(p: Parameters): (r: seq<(varint, varint)>)
    requires p.Valid()
  {
    [(ID_MAX_TABLE_CAPACITY as varint, p.maxTable as varint), (ID_BLOCKED_STREAMS, p.maxBlocked)]
    + (if p.WebTransportEnabled() then [(ID_WEB_TRANSPORT as varint, 1 as varint)] else [])
    + (if p.datagram then [(ID_H3_DATAGRAM as varint, 1 as varint)] else [])
  }

  /** The token: a version, then the settings that matter for 0-RTT. */
  function Save(p: Parameters): (token: seq<byte>)
    requires p.Valid()
  {
    EncodeVarint(ZERO_RTT_VERSION) + PairBytes(SavedPairs(p))
  }

  /** One remembered setting is still good under the current configuration. */
  predicate StillGood(p: Parameters, s: Setting) {
    match s.kind
    case BlockedStreams => p.maxBlocked >= s.value
    case MaxTableCapacity => p.maxTable >= s.value
    case EnableWebTransport => s.value <= 1 && (p.WebTransportEnabled() || s.value != 1)
    case EnableH3Datagram => s.value <= 1 && (p.datagram || s.value != 1)
    case EnableConnect => s.value <= 1 && (p.connect || s.value != 1)
    case MaxHeaderListSize => true
  }

  /** What a token deserves. */
  function CheckResult(p: Parameters, token: seq<byte>): (r: ZeroRttResult) {
    var version := ParseVarint(token);
    if version.None? then Fail
    else if version.value.value != ZERO_RTT_VERSION then Reject
    else
      var s := DecodeAll(token[version.value.size..], []);
      if s.Err? then Fail
      else if forall i :: 0 <= i < |s.value| ==> StillGood(p, s.value[i]) then Accept
      else Reject
  }

  method Check(p: Parameters, token: seq<byte>) returns (r: ZeroRttResult)
    ensures r == CheckResult(p, token)
  {
    var dec := new Decoder(token);
    var version := dec.DecodeVarint();
    if version.None? {
      return Fail;
    }
    if version.value != ZERO_RTT_VERSION {
      return Reject;
    }
    var settings := new HSettings([]);
    var decoded := settings.DecodeFrameContents(dec);
    if decoded.Err? {
      return Fail;
    }
    var good := AllStillGood(p, settings.settings);
    r := if good then Accept else Reject;
  }

  method AllStillGood(p: Parameters, s: seq<Setting>) returns (good: bool)
    ensures good <==> forall i :: 0 <= i < |s| ==> StillGood(p, s[i])
  {
    for i := 0 to |s|
      invariant forall j :: 0 <= j < i ==> StillGood(p, s[j])
    {
      if !StillGood(p, s[i]) {
        return false;
      }
    }
    good := true;
  }

  function SavedSettings(p: Parameters): (s: seq<Setting>) {
    [Setting(MaxTableCapacity, p.maxTable), Setting(BlockedStreams, p.maxBlocked)]
    + (if p.WebTransportEnabled() then [Setting(EnableWebTransport, 1)] else [])
    + (if p.datagram then [Setting(EnableH3Datagram, 1)] else [])
  }

  lemma SavedDecodes(p: Parameters)
    requires p.Valid()
    ensures DecodeAll(PairBytes(SavedPairs(p)), []) == Ok(SavedSettings(p))
  {
    var ps := SavedPairs(p);
    DecodePairs(ps, []);
    assert TakeAll([], ps) == Ok(SavedSettings(p)) by {
      SavedTaken(p);
    }
  }

  lemma SavedTaken(p: Parameters)
    requires p.Valid()
    ensures TakeAll([], SavedPairs(p)) == Ok(SavedSettings(p))
  {
    var ps := SavedPairs(p);
    var two := [Setting(MaxTableCapacity, p.maxTable), Setting(BlockedStreams, p.maxBlocked)];
    assert two == [Setting(MaxTableCapacity, p.maxTable)] + [Setting(BlockedStreams, p.maxBlocked)];
    assert ps[0] == (ID_MAX_TABLE_CAPACITY, p.maxTable) && ps[1..][0] == (ID_BLOCKED_STREAMS, p.maxBlocked);
    assert [] + [Setting(MaxTableCapacity, p.maxTable)] == [Setting(MaxTableCapacity, p.maxTable)];
    assert TakeAll([Setting(MaxTableCapacity, p.maxTable)], ps[1..]) == TakeAll(two, ps[1..][1..]);
    assert TakeAll([], ps) == TakeAll(two, ps[1..][1..]);
    var wt: seq<(varint, varint)> := if p.WebTransportEnabled() then [(ID_WEB_TRANSPORT, 1)] else [];
    var dg: seq<(varint, varint)> := if p.datagram then [(ID_H3_DATAGRAM, 1)] else [];
    assert ps[1..][1..] == wt + dg;
    var three := two + (if p.WebTransportEnabled() then [Setting(EnableWebTransport, 1)] else []);
    assert TakeAll(two, wt + dg) == TakeAll(three, dg) by {
      if p.WebTransportEnabled() {
        assert (wt + dg)[1..] == dg;
      } else {
        assert wt + dg == dg && three == two;
      }
    }
    assert !Contains(three, EnableH3Datagram);
    assert TakeAll(three, dg) == Ok(SavedSettings(p));
  }

  /** Accepted are exactly the tokens of version 1 that hold well-formed settings, none of them above what the
      configuration announces. */
  lemma AcceptedToken(p: Parameters, version: varint, contents: seq<byte>)
    ensures CheckResult(p, EncodeVarint(version) + contents) == Accept <==>
              && version == 1 && DecodeAll(contents, []).Ok?
              && forall x :: x in DecodeAll(contents, []).value ==>
                   x.kind == MaxHeaderListSize || x.value <= ParameterValue(p, x.kind)
  {
    VarintRoundTrip(version, contents);
    assert (EncodeVarint(version) + contents)[VarintLen(version)..] == contents;
    if DecodeAll(contents, []).Ok? {
      AllGood(p, DecodeAll(contents, []).value);
    }
  }

  lemma AllGood(p: Parameters, s: seq<Setting>)
    ensures (forall i :: 0 <= i < |s| ==> StillGood(p, s[i]))
       <==> (forall x :: x in s ==> x.kind == MaxHeaderListSize || x.value <= ParameterValue(p, x.kind))
  {
    forall x: Setting
      ensures StillGood(p, x) <==> x.kind == MaxHeaderListSize || x.value <= ParameterValue(p, x.kind)
    {
    }
  }

  /** A token this server saved is never malformed, and is accepted exactly while nothing it promised has
      been taken back. */
  lemma CheckSaved(p: Parameters, p': Parameters)
    requires p.Valid()
    ensures CheckResult(p', Save(p)) != Fail
    ensures CheckResult(p', Save(p)) == Accept
       <==> && p'.maxTable >= p.maxTable
            && p'.maxBlocked >= p.maxBlocked
            && (p.WebTransportEnabled() ==> p'.WebTransportEnabled())
            && (p.datagram ==> p'.datagram)
  {
    var body := PairBytes(SavedPairs(p));
    VarintRoundTrip(ZERO_RTT_VERSION, body);
    assert Save(p)[VarintLen(ZERO_RTT_VERSION)..] == body;
    SavedDecodes(p);
    SavedGood(p, p');
  }

  lemma SavedGood(p: Parameters, p': Parameters)
    ensures (forall i :: 0 <= i < |SavedSettings(p)| ==> StillGood(p', SavedSettings(p)[i]))
       <==> && p'.maxTable >= p.maxTable
            && p'.maxBlocked >= p.maxBlocked
            && (p.WebTransportEnabled() ==> p'.WebTransportEnabled())
            && (p.datagram ==> p'.datagram)
  {
    var s := SavedSettings(p);
    assert s[0] == Setting(MaxTableCapacity, p.maxTable) && s[1] == Setting(BlockedStreams, p.maxBlocked);
    if p.WebTransportEnabled() {
      assert s[2] == Setting(EnableWebTransport, 1);
    }
    if p.datagram {
      assert s[|s| - 1] == Setting(EnableH3Datagram, 1);
    }
  }
}
