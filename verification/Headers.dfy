/** Header lists and the checks on them (sections 4.2 and 4.3 of RFC 9114): one pass over the list with a
    set of the kinds seen, proved equivalent to a declarative description of a well-formed list.
 */
module Headers {
  import opened Bits

  /** A header field. A value is a byte string; a character stands for the byte with its code. */
  datatype Header = Header(name: string, value: string)
  datatype MessageType = Request | Response

  /** The kinds of header field that the check keeps track of. */
  datatype Kind = Status | Method | Scheme | Authority | Path | Protocol | Regular

  predicate IsPseudo(name: string) {
    name != "" && name[0] == ':'
  }

  /** The kinds of the pseudo-headers that a message of this type may carry. */
  function PseudoKind(mt: MessageType, name: string): (k: Option<Kind>)
    ensures k != Some(Regular)
  {
    match mt
    case Response => if name == ":status" then Some(Status) else None
    case Request =>
      if name == ":method" then Some(Method)
      else if name == ":scheme" then Some(Scheme)
      else if name == ":authority" then Some(Authority)
      else if name == ":path" then Some(Path)
      else if name == ":protocol" then Some(Protocol)
      else None
  }

  // ----- The declarative description -----

  /** The pseudo-headers a message of this type may carry. */
  ghost function AllowedPseudo(mt: MessageType): set<string> {
    match mt
    case Response => {":status"}
    case Request => {":method", ":scheme", ":authority", ":path", ":protocol"}
  }

  ghost predicate BadNameChar(c: char) {
    c in {'\0', '\n', '\r', ':'} || 'A' <= c <= 'Z'
  }

  ghost predicate BadValueChar(c: char) {
    c in {'\0', '\n', '\r'}
  }

  ghost predicate ConnectionSpecific(h: Header) {
    || h.name in {"connection", "keep-alive", "proxy-connection", "transfer-encoding", "upgrade"}
    || (h.name == "te" && h.value != "trailers")
  }

  /** One field on its own: a known pseudo-header or a lower-case name without colons, no forbidden
      bytes, and nothing that belongs to a connection. */
  ghost predicate FieldOk(h: Header, mt: MessageType) {
    && (IsPseudo(h.name) ==> h.name in AllowedPseudo(mt))
    && !(exists c :: c in (if IsPseudo(h.name) then h.name[1..] else h.name) && BadNameChar(c))
    && !(exists c :: c in h.value && BadValueChar(c))
    && !ConnectionSpecific(h)
  }

  /** A field and a later one: pseudo-headers come first and do not repeat. */
  predicate PairOk(a: Header, b: Header) {
    IsPseudo(b.name) ==> IsPseudo(a.name) && a.name != b.name
  }

  ghost predicate FieldsOk(hs: seq<Header>, mt: MessageType) {
    && (forall i :: 0 <= i < |hs| ==> FieldOk(hs[i], mt))
    && (forall i, j :: 0 <= i < j < |hs| ==> PairOk(hs[i], hs[j]))
  }

  ghost predicate Has(hs: seq<Header>, name: string) {
    exists i :: 0 <= i < |hs| && hs[i].name == name
  }

  /** Some field has this name and this value. */
  ghost predicate HasValue(hs: seq<Header>, name: string, value: string) {
    exists i :: 0 <= i < |hs| && hs[i].name == name && hs[i].value == value
  }

  /** The pseudo-headers that have to be there. */
  ghost predicate MandatoryOk(hs: seq<Header>, mt: MessageType) {
    match mt
    case Response => Has(hs, ":status")
    case Request =>
      if HasValue(hs, ":method", "CONNECT") then
        && Has(hs, ":authority")
        && (Has(hs, ":protocol") ==> Has(hs, ":scheme") && Has(hs, ":path"))
        && (HasValue(hs, ":protocol", "webtransport") ==> HasValue(hs, ":scheme", "https"))
      else
        Has(hs, ":method") && Has(hs, ":scheme") && Has(hs, ":path") && !Has(hs, ":protocol")
  }

  ghost predicate WellFormed(hs: seq<Header>, mt: MessageType) {
    FieldsOk(hs, mt) && MandatoryOk(hs, mt)
  }

  // ----- The single pass -----

  function KindOf(mt: MessageType, name: string): (k: Kind) {
    if !IsPseudo(name) then Regular
    else
      var k := PseudoKind(mt, name);
      if k.None? then Regular else k.value
  }

  /** What the pass knows after the fields `hs`: which kinds occurred, and three of their values. */
  ghost predicate Tracked(hs: seq<Header>, mt: MessageType, state: set<Kind>,
                          method_: Option<string>, protocol: Option<string>, scheme: Option<string>)
  {
    && FieldsOk(hs, mt)
    && (forall k :: k in state <==> exists i :: 0 <= i < |hs| && KindOf(mt, hs[i].name) == k)
    && ValueTracked(hs, mt, ":method", method_)
    && ValueTracked(hs, mt, ":protocol", protocol)
    && ValueTracked(hs, mt, ":scheme", scheme)
  }

  ghost predicate ValueTracked(hs: seq<Header>, mt: MessageType, name: string, v: Option<string>) {
    match v
    case None => !Has(hs, name)
    case Some(x) =>
      && HasValue(hs, name, x)
      && forall i :: 0 <= i < |hs| && hs[i].name == name ==> hs[i].value == x
  }

  method TrackPseudo(name: string, state: set<Kind>, mt: MessageType)
    returns (r: Option<bool>, state': set<Kind>)
    ensures r.None? <==> IsPseudo(name) &&
                         (Regular in state || PseudoKind(mt, name).None? || KindOf(mt, name) in state)
    ensures r.Some? ==> r.value == IsPseudo(name) && state' == state + {KindOf(mt, name)}
  {
    state' := state;
    var kind := Regular;
    if IsPseudo(name) {
      if Regular in state {
        return None, state;
      }
      var k := PseudoKind(mt, name);
      if k.None? {
        return None, state;
      }
      kind := k.value;
    }
    var pseudo := kind != Regular;
    if kind !in state || !pseudo {
      return Some(pseudo), state + {kind};
    }
    return None, state;
  }

  /** Tracking fails exactly when the field is an unknown pseudo-header or does not go with a field before it. */
  lemma TrackingIsPairwise(hs: seq<Header>, mt: MessageType, state: set<Kind>, name: string, value: string)
    requires FieldsOk(hs, mt)
    requires forall k :: k in state <==> exists i :: 0 <= i < |hs| && KindOf(mt, hs[i].name) == k
    requires IsPseudo(name) && PseudoKind(mt, name).Some?
    ensures (Regular in state || KindOf(mt, name) in state)
       <==> exists i :: 0 <= i < |hs| && !PairOk(hs[i], Header(name, value))
  {
  }

  lemma FieldsAppend(hs: seq<Header>, mt: MessageType, h: Header)
    ensures FieldsOk(hs + [h], mt)
       <==> FieldsOk(hs, mt) && FieldOk(h, mt) && forall i :: 0 <= i < |hs| ==> PairOk(hs[i], h)
  {
    var all := hs + [h];
    assert forall i :: 0 <= i < |hs| ==> all[i] == hs[i];
    if FieldsOk(all, mt) {
      assert FieldOk(all[|hs|], mt);
      forall i | 0 <= i < |hs|
        ensures FieldOk(hs[i], mt) && PairOk(hs[i], h)
      {
        assert FieldOk(all[i], mt) && PairOk(all[i], all[|hs|]);
      }
      forall i, j | 0 <= i < j < |hs|
        ensures PairOk(hs[i], hs[j])
      {
        assert PairOk(all[i], all[j]);
      }
    }
  }

  lemma FieldsPrefix(hs: seq<Header>, mt: MessageType, k: nat)
    requires k <= |hs| && !FieldsOk(hs[..k], mt)
    ensures !FieldsOk(hs, mt)
  {
  }

  /** One turn of the pass: the field is accepted exactly if it is fine and goes with all fields before it. */
  method CheckField(h: Header, mt: MessageType, state: set<Kind>, ghost hs: seq<Header>)
    returns (ok: bool, state': set<Kind>)
    requires FieldsOk(hs, mt)
    requires forall k :: k in state <==> exists i :: 0 <= i < |hs| && KindOf(mt, hs[i].name) == k
    ensures ok <==> FieldsOk(hs + [h], mt)
    ensures ok ==> state' == state + {KindOf(mt, h.name)}
  {
    FieldsAppend(hs, mt, h);
    var tracked;
    tracked, state' := TrackPseudo(h.name, state, mt);
    if IsPseudo(h.name) && PseudoKind(mt, h.name).Some? {
      TrackingIsPairwise(hs, mt, state, h.name, h.value);
    }
    if tracked.None? {
      return false, state';
    }
    var badName := AnyBadNameByte(if tracked.value then h.name[1..] else h.name);
    if badName {
      return false, state';
    }
    var badValue := AnyBadValueByte(h.value);
    if badValue {
      return false, state';
    }
    ok := !Refused(h);
  }

  method AnyBadNameByte(bytes: string) returns (bad: bool)
    ensures bad <==> exists c :: c in bytes && BadNameChar(c)
  {
    for i := 0 to |bytes|
      invariant forall j :: 0 <= j < i ==> !BadNameChar(bytes[j])
    {
      var b := bytes[i] as int;
      if b == 0 || b == 0x0a || b == 0x0d || b == 0x3a || 0x41 <= b <= 0x5a {
        assert BadNameChar(bytes[i]);
        return true;
      }
    }
    bad := false;
  }

  method AnyBadValueByte(bytes: string) returns (bad: bool)
    ensures bad <==> exists c :: c in bytes && BadValueChar(c)
  {
    for i := 0 to |bytes|
      invariant forall j :: 0 <= j < i ==> !BadValueChar(bytes[j])
    {
      var b := bytes[i] as int;
      if b == 0 || b == 0x0a || b == 0x0d {
        assert BadValueChar(bytes[i]);
        return true;
      }
    }
    bad := false;
  }

  /** Fields that make a message malformed. */
  predicate Refused(h: Header)
    ensures Refused(h) <==> ConnectionSpecific(h)
  {
    if h.name == "connection" || h.name == "keep-alive" || h.name == "proxy-connection" then true
    else if h.name == "transfer-encoding" || h.name == "upgrade" then true
    else h.name == "te" && h.value != "trailers"
  }

  lemma TrackedAppend(hs: seq<Header>, mt: MessageType, state: set<Kind>, h: Header)
    requires forall k :: k in state <==> exists i :: 0 <= i < |hs| && KindOf(mt, hs[i].name) == k
    ensures forall k :: k in state + {KindOf(mt, h.name)} <==>
                        exists i :: 0 <= i < |hs + [h]| && KindOf(mt, (hs + [h])[i].name) == k
  {
    var all := hs + [h];
    forall k
      ensures k in state + {KindOf(mt, h.name)} <==> exists i :: 0 <= i < |all| && KindOf(mt, all[i].name) == k
    {
      if k in state {
        var i :| 0 <= i < |hs| && KindOf(mt, hs[i].name) == k;
        assert all[i] == hs[i];
      }
      if k == KindOf(mt, h.name) {
        assert all[|hs|] == h;
      }
    }
  }

  lemma ValueAppend(hs: seq<Header>, mt: MessageType, name: string, v: Option<string>, h: Header)
    requires IsPseudo(name) && FieldsOk(hs + [h], mt) && ValueTracked(hs, mt, name, v)
    ensures ValueTracked(hs + [h], mt, name, if h.name == name then Some(h.value) else v)
  {
    var all := hs + [h];
    assert all[|hs|] == h;
    assert forall i :: 0 <= i < |hs| ==> all[i] == hs[i];
    if h.name == name {
      forall i | 0 <= i < |hs|
        ensures hs[i].name != name
      {
        assert PairOk(all[i], all[|hs|]);
      }
    } else if v.Some? {
      var i :| 0 <= i < |hs| && hs[i].name == name && hs[i].value == v.value;
      assert all[i] == hs[i];
    }
  }

  /** One turn of the pass, with the values that are kept for the end. */
  method TakeField(h: Header, mt: MessageType, state: set<Kind>, method_: Option<string>, protocol: Option<string>,
                   scheme: Option<string>, ghost hs: seq<Header>, ghost hs': seq<Header>)
    returns (ok: bool, state': set<Kind>, method': Option<string>, protocol': Option<string>, scheme': Option<string>)
    requires Tracked(hs, mt, state, method_, protocol, scheme) && hs' == hs + [h]
    ensures ok <==> FieldsOk(hs', mt)
    ensures ok ==> Tracked(hs', mt, state', method', protocol', scheme')
  {
    method', protocol', scheme' := method_, protocol, scheme;
    ok, state' := CheckField(h, mt, state, hs);
    if !ok {
      return;
    }
    TrackedAppend(hs, mt, state, h);
    ValueAppend(hs, mt, ":method", method_, h);
    ValueAppend(hs, mt, ":protocol", protocol, h);
    ValueAppend(hs, mt, ":scheme", scheme, h);
    if h.name == ":method" {
      method' := Some(h.value);
    } else if h.name == ":protocol" {
      protocol' := Some(h.value);
    } else if h.name == ":scheme" {
      scheme' := Some(h.value);
    }
  }

  lemma OneMore(headers: seq<Header>, k: nat)
    requires k < |headers|
    ensures headers[..k + 1] == headers[..k] + [headers[k]]
  {
  }

  /** The pass over all fields. */
  method TakeFields(headers: seq<Header>, mt: MessageType)
    returns (ok: bool, state: set<Kind>, method_: Option<string>, protocol: Option<string>, scheme: Option<string>)
    ensures ok <==> FieldsOk(headers, mt)
    ensures ok ==> Tracked(headers, mt, state, method_, protocol, scheme)
  {
    ok, state, method_, protocol, scheme := true, {}, None, None, None;
    ghost var taken: seq<Header> := [];
    for k := 0 to |headers|
      invariant ok && taken == headers[..k] && Tracked(taken, mt, state, method_, protocol, scheme)
    {
      OneMore(headers, k);
      ok, state, method_, protocol, scheme :=
        TakeField(headers[k], mt, state, method_, protocol, scheme, taken, headers[..k + 1]);
      taken := headers[..k + 1];
      if !ok {
        FieldsPrefix(headers, mt, k + 1);
        return;
      }
    }
    assert headers[..|headers|] == headers;
  }

  /** The check accepts exactly the well-formed lists. */
  method HeadersValid(headers: seq<Header>, mt: MessageType) returns (ok: bool)
    ensures ok <==> WellFormed(headers, mt)
  {
    var state, method_, protocol, scheme;
    ok, state, method_, protocol, scheme := TakeFields(headers, mt);
    if ok {
      ok := MandatoryPresent(mt, state, method_, protocol, scheme);
      MandatoryMeans(headers, mt, state, method_, protocol, scheme);
    }
  }

  /** The mask test at the end of the check. */
  predicate MandatoryPresent(mt: MessageType, state: set<Kind>,
                             method_: Option<string>, protocol: Option<string>, scheme: Option<string>)
  {
    match mt
    case Response => {Status} <= state
    case Request =>
      if method_ == Some("CONNECT") then
        if protocol.Some? then
          && !(protocol.value == "webtransport" && scheme != Some("https"))
          && {Method, Authority, Scheme, Path} <= state
        else {Method, Authority} <= state
      else
        Protocol !in state && {Method, Scheme, Path} <= state
  }

  lemma KindMeansName(hs: seq<Header>, mt: MessageType, state: set<Kind>, k: Kind, name: string)
    requires FieldsOk(hs, mt) && IsPseudo(name) && PseudoKind(mt, name) == Some(k)
    requires forall k :: k in state <==> exists i :: 0 <= i < |hs| && KindOf(mt, hs[i].name) == k
    ensures k in state <==> Has(hs, name)
  {
  }

  lemma MandatoryMeans(hs: seq<Header>, mt: MessageType, state: set<Kind>,
                       method_: Option<string>, protocol: Option<string>, scheme: Option<string>)
    requires Tracked(hs, mt, state, method_, protocol, scheme)
    ensures MandatoryPresent(mt, state, method_, protocol, scheme) <==> MandatoryOk(hs, mt)
  {
    match mt
    case Response => KindMeansName(hs, mt, state, Status, ":status");
    case Request =>
      RequestKinds(hs, state);
      TrackedValue(hs, mt, ":method", method_, "CONNECT");
      TrackedValue(hs, mt, ":protocol", protocol, "webtransport");
      TrackedValue(hs, mt, ":scheme", scheme, "https");
      RequestMandatory(hs, state, method_, protocol, scheme);
  }

  lemma RequestKinds(hs: seq<Header>, state: set<Kind>)
    requires FieldsOk(hs, Request)
    requires forall k :: k in state <==> exists i :: 0 <= i < |hs| && KindOf(Request, hs[i].name) == k
    ensures Method in state <==> Has(hs, ":method")
    ensures Scheme in state <==> Has(hs, ":scheme")
    ensures Authority in state <==> Has(hs, ":authority")
    ensures Path in state <==> Has(hs, ":path")
    ensures Protocol in state <==> Has(hs, ":protocol")
  {
    KindMeansName(hs, Request, state, Method, ":method");
    KindMeansName(hs, Request, state, Scheme, ":scheme");
    KindMeansName(hs, Request, state, Authority, ":authority");
    KindMeansName(hs, Request, state, Path, ":path");
    KindMeansName(hs, Request, state, Protocol, ":protocol");
  }

  lemma RequestMandatory(hs: seq<Header>, state: set<Kind>,
                         method_: Option<string>, protocol: Option<string>, scheme: Option<string>)
    requires Method in state <==> Has(hs, ":method")
    requires Scheme in state <==> Has(hs, ":scheme")
    requires Authority in state <==> Has(hs, ":authority")
    requires Path in state <==> Has(hs, ":path")
    requires Protocol in state <==> Has(hs, ":protocol")
    requires method_ == Some("CONNECT") <==> HasValue(hs, ":method", "CONNECT")
    requires protocol == Some("webtransport") <==> HasValue(hs, ":protocol", "webtransport")
    requires scheme == Some("https") <==> HasValue(hs, ":scheme", "https")
    requires method_.Some? <==> Has(hs, ":method")
    requires protocol.Some? <==> Has(hs, ":protocol")
    requires scheme.Some? <==> Has(hs, ":scheme")
    ensures MandatoryPresent(Request, state, method_, protocol, scheme) <==> MandatoryOk(hs, Request)
  {
  }

  lemma TrackedValue(hs: seq<Header>, mt: MessageType, name: string, v: Option<string>, value: string)
    requires ValueTracked(hs, mt, name, v)
    ensures v == Some(value) <==> HasValue(hs, name, value)
    ensures v.Some? <==> Has(hs, name)
    ensures HasValue(hs, name, value) ==> Has(hs, name)
  {
  }

  /** In a well-formed response `:status` is the first field and occurs nowhere else. */
  lemma StatusIsFirst(hs: seq<Header>)
    requires WellFormed(hs, Response)
    ensures hs != [] && hs[0].name == ":status"
    ensures forall i :: 0 < i < |hs| ==> !IsPseudo(hs[i].name)
  {
  }

  // ----- Interim responses and trailers -----

  predicate IsDigit(c: char) {
    '0' <= c <= '9'
  }

  function DigitsValue(s: string): (v: nat)
    requires forall c :: c in s ==> IsDigit(c)
  {
    if s == "" then 0 else
      assert IsDigit(s[|s| - 1]);
      10 * DigitsValue(s[..|s| - 1]) + (s[|s| - 1] as int - '0' as int)
  }

  /** A 16-bit number in decimal, with an optional plus sign, as `str::parse` reads it. */
  function ParseU16(s: string): (r: Option<nat>) {
    var digits := if s != "" && s[0] == '+' then s[1..] else s;
    if digits == "" || exists c :: c in digits && !IsDigit(c) then None
    else if DigitsValue(digits) > 0xffff then None
    else Some(DigitsValue(digits))
  }

  /** Whether the response is informational; None for a response without a usable status. */
  function IsInterim(hs: seq<Header>): (r: Option<bool>) {
    if hs == [] || hs[0].name != ":status" then None
    else
      var status := ParseU16(hs[0].value);
      if status.None? || status.value == 101 then None
      else Some(100 <= status.value < 200)
  }

  method ContainsHeader(hs: seq<Header>, name: string, value: string) returns (found: bool)
    ensures found <==> HasValue(hs, name, value)
  {
    for i := 0 to |hs|
      invariant !HasValue(hs[..i], name, value)
    {
      if hs[i].name == name && hs[i].value == value {
        return true;
      }
    }
    assert hs[..|hs|] == hs;
    found := false;
  }

  /** The first field of that name. */
  method FindHeader(hs: seq<Header>, name: string) returns (r: Option<Header>)
    ensures r.Some? <==> Has(hs, name)
    ensures r.Some? ==> exists i :: 0 <= i < |hs| && hs[i] == r.value && hs[i].name == name && !Has(hs[..i], name)
  {
    for i := 0 to |hs|
      invariant !Has(hs[..i], name)
    {
      if hs[i].name == name {
        return Some(hs[i]);
      }
    }
    assert hs[..|hs|] == hs;
    r := None;
  }

  /** A status of three digits: 101 is refused, the other codes from 100 on are informational. */
  lemma ThreeDigits(hs: seq<Header>, a: char, b: char, c: char)
    requires hs != [] && hs[0] == Header(":status", [a, b, c])
    requires '0' <= a <= '9' && '0' <= b <= '9' && '0' <= c <= '9'
    ensures IsInterim(hs) == if [a, b, c] == "101" then None else Some(a == '1')
  {
    var v := [a, b, c];
    assert v[..2] == [a, b] && [a, b][..1] == [a] && [a][..0] == [];
    assert DigitsValue([a]) == a as int - '0' as int;
    assert DigitsValue([a, b]) == 10 * DigitsValue([a]) + (b as int - '0' as int);
    assert DigitsValue(v) == 100 * (a as int - '0' as int) + 10 * (b as int - '0' as int) + (c as int - '0' as int);
    assert "101" == ['1', '0', '1'];
  }

  /** A status that is not a number is refused, and so is a response that does not start with one. A plus sign
      in front of the number makes no difference. */
  lemma OtherStatus(hs: seq<Header>)
    ensures hs == [] || hs[0].name != ":status" ==> IsInterim(hs) == None
    ensures hs != [] && hs[0].value in {"", "+"} ==> IsInterim(hs) == None
    ensures hs != [] && OddCharacter(hs[0].value) ==> IsInterim(hs) == None
  {
    if hs != [] && OddCharacter(hs[0].value) {
      var v := hs[0].value;
      var i :| 0 <= i < |v| && !('0' <= v[i] <= '9') && (i > 0 || v[0] != '+');
      var digits := if v[0] == '+' then v[1..] else v;
      assert v[i] in digits && !IsDigit(v[i]) by {
        assert v[i] == digits[if v[0] == '+' then i - 1 else i];
      }
    }
  }

  /** There is something other than a digit behind an optional plus sign. */
  ghost predicate OddCharacter(v: string) {
    exists i :: 0 <= i < |v| && !('0' <= v[i] <= '9') && (i > 0 || v[0] != '+')
  }

  /** A number that does not fit 16 bits is refused. */
  lemma LargeStatus(hs: seq<Header>)
    requires hs != [] && hs[0].name == ":status" && hs[0].value != "" && forall c :: c in hs[0].value ==> IsDigit(c)
    ensures DigitsValue(hs[0].value) >= 65536 ==> IsInterim(hs) == None
    ensures 200 <= DigitsValue(hs[0].value) < 65536 ==> IsInterim(hs) == Some(false)
  {
    assert IsDigit(hs[0].value[0]);
  }

  lemma PlusSign(v: string, rest: seq<Header>)
    requires v != "" && v[0] != '+'
    ensures IsInterim([Header(":status", "+" + v)] + rest) == IsInterim([Header(":status", v)] + rest)
  {
    assert ("+" + v)[1..] == v;
  }

  method TrailersValid(headers: seq<Header>) returns (ok: bool)
    ensures ok <==> forall i :: 0 <= i < |headers| ==> !IsPseudo(headers[i].name)
  {
    for k := 0 to |headers|
      invariant forall i :: 0 <= i < k ==> !IsPseudo(headers[i].name)
    {
      if IsPseudo(headers[k].name) {
        return false;
      }
    }
    ok := true;
  }

  /** Fields that a response must not hand to the application. */
  predicate AllowedForResponse(h: Header) {
    h.name !in {"connection", "host", "keep-alive", "proxy-connection", "te", "transfer-encoding", "upgrade"}
  }

  function Retained(hs: seq<Header>): (r: seq<Header>) {
    if hs == [] then []
    else if AllowedForResponse(hs[0]) then [hs[0]] + Retained(hs[1..])
    else Retained(hs[1..])
  }

  /** Fields are kept or dropped one by one, in order. */
  lemma {:induction false} RetainedConcat(a: seq<Header>, b: seq<Header>)
    ensures Retained(a + b) == Retained(a) + Retained(b)
  {
    if a == [] {
      assert a + b == b;
    } else {
      assert (a + b)[0] == a[0] && (a + b)[1..] == a[1..] + b;
      RetainedConcat(a[1..], b);
    }
  }

  lemma RetainedOne(h: Header)
    ensures Retained([h]) ==
              if || h.name == "connection" || h.name == "host" || h.name == "keep-alive" || h.name == "te"
                 || h.name == "proxy-connection" || h.name == "transfer-encoding" || h.name == "upgrade"
              then [] else [h]
  {
    assert [h][1..] == [];
  }

  /** The application gets a well-formed response as it was sent, if it has no `host` and no `te` field. */
  lemma {:induction false} AllRetained(hs: seq<Header>)
    requires FieldsOk(hs, Response) && !Has(hs, "host") && !Has(hs, "te")
    ensures Retained(hs) == hs
  {
    if hs != [] {
      var h, rest := hs[0], hs[1..];
      assert FieldOk(h, Response) && h.name != "host" && h.name != "te";
      forall i | 0 <= i < |rest|
        ensures rest[i] == hs[i + 1]
      {
      }
      AllRetained(rest);
      RetainedOne(h);
      RetainedConcat([h], rest);
      assert [h] + rest == hs;
    }
  }

  /** Otherwise it gets what is left without them. */
  lemma OneDropped(a: seq<Header>, h: Header, b: seq<Header>)
    requires h.name == "host" || h.name == "te"
    ensures Retained(a + [h] + b) == Retained(a + b)
  {
    RetainedConcat(a + [h], b);
    RetainedConcat(a, [h]);
    RetainedOne(h);
    RetainedConcat(a, b);
    assert Retained(a) + [] == Retained(a);
  }
}
