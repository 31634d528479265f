/** The encoder: fixed-width and variable-length integers, length-prefixed strings, padding and
    truncation, over any of the buffers. A run of encoder calls is a sequence of `Op`s, so that a closure
    passed to `encode_vvec_with` is data; `ApplyAll` says what a run does to the bytes encoded so far.
 */
module Encoders {
  import opened Bits
  import opened Varint
  import opened Buffers

  datatype Op =
    | Bytes(data: seq<byte>)
    | Uint(n: nat, value: nat)
    | VarintOp(value: nat)
    | Vvec(data: seq<byte>)
    | VvecWith(inner: seq<Op>)
    | PadTo(len: nat, fill: byte)
    | Truncate(len: nat)

  /** What one call turns the encoded bytes into; None where the original panics: a value out of range,
      a buffer that is too small, or a closure that cuts off the byte reserved for its length. */
  function Apply(op: Op, s: seq<byte>, room: Option<nat>): (r: Option<seq<byte>>)
    decreases op
  {
    match op
    case Bytes(data) => Append(s, data, room)
    case Uint(n, value) => if 1 <= n <= 8 then Append(s, ToBE(value, n), room) else None
    case VarintOp(value) => if value <= MAX_VARINT then Append(s, EncodeVarint(value), room) else None
    case Vvec(data) => if |data| <= MAX_VARINT then Append(s, EncodeVarint(|data|) + data, room) else None
    case VvecWith(inner) =>
      if !Fits(room, |s| + 1) then None
      else
        var r := ApplyAll(inner, s + [0], room);
        if r.None? then None else InsertLength(r.value, |s|, room)
    case PadTo(len, fill) =>
      if len <= |s| then Some(s) else Append(s, seq(len - |s|, _ => fill), room)
    case Truncate(len) => Some(if len < |s| then s[..len] else s)
  }

  function ApplyAll(ops: seq<Op>, s: seq<byte>, room: Option<nat>): (r: Option<seq<byte>>)
    decreases ops
  {
    if ops == [] then Some(s)
    else
      var r := Apply(ops[0], s, room);
      if r.None? then None else ApplyAll(ops[1..], r.value, room)
  }

  function Append(s: seq<byte>, data: seq<byte>, room: Option<nat>): Option<seq<byte>> {
    if Fits(room, |s| + |data|) then Some(s + data) else None
  }

  /** Replace the byte at `at` by the varint length of everything after it. */
  function InsertLength(s: seq<byte>, at: nat, room: Option<nat>): Option<seq<byte>> {
    if |s| <= at || |s| - at - 1 > MAX_VARINT then None
    else
      var r := s[..at] + EncodeVarint(|s| - at - 1) + s[at + 1..];
      if Fits(room, |r|) then Some(r) else None
  }

  // ----- Splitting a varint into its low byte and the bytes above it -----

  /** The high bytes of a tagged value are its quotient by 256, tagged eight bits lower. */
  lemma HighBytes(c: nat, n: nat, k: nat, v: nat)
    requires n >= 1 && v < Pow2(k + 8)
    ensures ToBE(BitOr(v, Shl(c, k + 8)), n) == ToBE(BitOr(Shr(v, 8), Shl(c, k)), n - 1) + [BitAnd(v, 0xff)]
  {
    TaggedParts(c, k, v);
    var w := Shl(c, k) + Shr(v, 8);
    assert (256 * w + v % 256) / 256 == w && (256 * w + v % 256) % 256 == v % 256;
  }

  lemma TaggedParts(c: nat, k: nat, v: nat)
    requires v < Pow2(k + 8)
    ensures BitOr(Shr(v, 8), Shl(c, k)) == Shl(c, k) + Shr(v, 8)
    ensures BitAnd(v, 0xff) == v % 256
    ensures BitOr(v, Shl(c, k + 8)) == 256 * (Shl(c, k) + Shr(v, 8)) + v % 256
  {
    TaggedBy(c, k, 8, v);
  }

  lemma TaggedBy(c: nat, k: nat, n: nat, v: nat)
    requires Pow2(n) == 256 && v < Pow2(k + n)
    ensures BitOr(Shr(v, n), Shl(c, k)) == Shl(c, k) + Shr(v, n)
    ensures BitAnd(v, 0xff) == v % 256
    ensures BitOr(v, Shl(c, k + n)) == 256 * (Shl(c, k) + Shr(v, n)) + v % 256
  {
    OrDisjoint(c, v, k + n);
    ShrBound(v, k, n);
    OrDisjoint(c, Shr(v, n), k);
    AndMask(v, n);
    ByteParts(v, n);
    ShlAdd(c, k, n);
    ShlMul(Shl(c, k), n);
  }

  /** How many bytes of the length go behind the block, and the tag of the varint size above them. */
  function HighCount(v: varint): (r: (nat, nat))
    requires v >= 0x40
  {
    if v < 0x4000 then (1, Shl(1, 6))
    else if v < 0x4000_0000 then (3, Shl(2, 22))
    else (7, Shl(3, 54))
  }

  lemma VarintSplit(v: varint)
    requires v >= 0x40
    ensures EncodeVarint(v)
         == ToBE(BitOr(Shr(v, 8), HighCount(v).1), HighCount(v).0) + [BitAnd(v, 0xff)]
  {
    Pow2Values();
    if v < 0x4000 {
      HighBytes(1, 2, 6, v);
    } else if v < 0x4000_0000 {
      HighBytes(2, 4, 22, v);
    } else {
      HighBytes(3, 8, 54, v);
    }
  }

  lemma OneByteVarint(v: varint)
    requires v < 0x40
    ensures EncodeVarint(v) == [BitAnd(v, 0xff)]
  {
    AndMask(v, 8);
    LowSmall(v, 8);
  }

  /** Writing the low byte in front, the high bytes behind, and rotating gives the varint in front. */
  lemma RotateTrick(c: seq<byte>, at: nat, hi: seq<byte>, low: byte)
    requires at < |c|
    ensures var d := c[at := low] + hi;
            d[..at] + Rotated(d[at..], |hi|) == c[..at] + (hi + [low]) + c[at + 1..]
  {
    var d, tail := c[at := low] + hi, [low] + c[at + 1..];
    assert d[..at] == c[..at] && d[at..] == tail + hi;
    assert Rotated(tail + hi, |hi|) == hi + tail == (hi + [low]) + c[at + 1..];
    ConcatAssoc(c[..at], hi + [low], c[at + 1..]);
  }

  /** The same, seen from an encoder that starts at `start`. */
  lemma Inserted(c: seq<byte>, at: nat, start: nat, room: Option<nat>)
    requires start <= at < |c| && InsertLength(c[start..], at - start, room).Some?
    ensures |c| - at - 1 <= MAX_VARINT
    ensures var r := c[..at] + EncodeVarint(|c| - at - 1) + c[at + 1..];
            && r[..start] == c[..start]
            && InsertLength(c[start..], at - start, room) == Some(r[start..])
  {
    var s, k := c[start..], at - start;
    var len := EncodeVarint(|c| - at - 1);
    assert s[..k] == c[start..at] && s[k + 1..] == c[at + 1..];
    assert c[..at] == c[..start] + c[start..at];
    var r := c[..at] + len + c[at + 1..];
    assert r[start..] == s[..k] + len + s[k + 1..];
  }

  lemma VvecWithParts(inner: seq<Op>, s: seq<byte>, room: Option<nat>)
    requires Apply(VvecWith(inner), s, room).Some?
    ensures Fits(room, |s| + 1) && ApplyAll(inner, s + [0], room).Some?
    ensures Apply(VvecWith(inner), s, room) == InsertLength(ApplyAll(inner, s + [0], room).value, |s|, room)
  {
  }

  class Encoder {
    const buf: Buffer
    var start: nat

    ghost predicate Valid()
      reads this, buf.Repr()
    {
      buf.Valid() && start <= |buf.Contents()|
    }

    /** The bytes written by this encoder. */
    function AsRef(): seq<byte>
      requires Valid()
      reads this, buf.Repr()
    {
      buf.Contents()[start..]
    }

    /** The bytes that were in the buffer before. */
    function Before(): seq<byte>
      requires Valid()
      reads this, buf.Repr()
    {
      buf.Contents()[..start]
    }

    /** How many bytes this encoder can hold. */
    ghost function Room(): Option<nat>
      requires Valid()
      reads this, buf.Repr()
    {
      match buf.Room()
      case None => None
      case Some(n) => if start <= n then Some(n - start) else Some(0)
    }

    ghost predicate Kept(before: seq<byte>)
      reads this, buf.Repr()
    {
      Valid() && Before() == before
    }

    /** Encode behind whatever the buffer holds (an empty one for an owned vector or a slice). */
    constructor (b: Buffer)
      requires b.Valid()
      ensures buf == b && Valid() && AsRef() == [] && Before() == b.Contents()
    {
      buf := b;
      start := |b.Contents()|;
    }

    method Encode(data: seq<byte>)
      requires Valid() && Fits(Room(), |AsRef()| + |data|)
      modifies buf.Repr()
      ensures start == old(start) && Kept(old(Before())) && AsRef() == old(AsRef()) + data
    {
      ghost var was := buf.Contents();
      buf.WriteAll(data);
      Sliced(was, data, start);
    }

    method EncodeUint(n: nat, v: nat)
      requires Valid() && 1 <= n <= 8 && Fits(Room(), |AsRef()| + n)
      modifies buf.Repr()
      ensures start == old(start) && Kept(old(Before())) && AsRef() == old(AsRef()) + ToBE(v, n)
    {
      var bytes := ToBE(v, 8);
      LowBytes(v, 8, n);
      Encode(bytes[8 - n..]);
    }

    method EncodeVarint(v: nat)
      requires Valid() && v <= MAX_VARINT && Fits(Room(), |AsRef()| + VarintLen(v))
      modifies buf.Repr()
      ensures start == old(start) && Kept(old(Before()))
      ensures AsRef() == old(AsRef()) + Varint.EncodeVarint(v)
    {
      Encode(Varint.EncodeVarint(v));
    }

    method EncodeVvec(v: seq<byte>)
      requires Valid() && |v| <= MAX_VARINT && Fits(Room(), |AsRef()| + VarintLen(|v|) + |v|)
      modifies buf.Repr()
      ensures start == old(start) && Kept(old(Before()))
      ensures AsRef() == old(AsRef()) + (Varint.EncodeVarint(|v|) + v)
    {
      ghost var was := AsRef();
      EncodeVarint(|v|);
      Encode(v);
      ConcatAssoc(was, Varint.EncodeVarint(|v|), v);
    }

    method PadTo(len: nat, v: byte)
      requires Valid() && Fits(Room(), len)
      modifies buf.Repr()
      ensures start == old(start) && Kept(old(Before()))
      ensures AsRef() == if len <= |old(AsRef())| then old(AsRef())
                         else old(AsRef()) + seq(len - |old(AsRef())|, _ => v)
    {
      var bufferLen := start + len;
      if bufferLen > |buf.Contents()| {
        ghost var was := buf.Contents();
        buf.PadTo(bufferLen, v);
        Sliced(was, seq(bufferLen - |was|, _ => v), start);
      }
    }

    method Truncate(len: nat)
      requires Valid()
      modifies buf.Repr()
      ensures start == old(start) && Kept(old(Before()))
      ensures AsRef() == if len < |old(AsRef())| then old(AsRef())[..len] else old(AsRef())
    {
      ghost var was := buf.Contents();
      buf.Truncate(len + start);
      if len + start < |was| {
        assert was[..len + start][..start] == was[..start];
        assert was[..len + start][start..] == was[start..][..len];
      }
    }

    /** Reserve one byte, run the closure, then turn that byte into the varint length of what it wrote. */
    method EncodeVvecWith(inner: seq<Op>)
      requires Valid() && Apply(VvecWith(inner), AsRef(), Room()).Some?
      modifies buf.Repr()
      ensures start == old(start) && Kept(old(Before()))
      ensures Apply(VvecWith(inner), old(AsRef()), old(Room())) == Some(AsRef())
      decreases inner, 2
    {
      var at := |buf.Contents()|;
      ghost var written, room := AsRef(), Room();
      VvecWithParts(inner, written, room);
      Encode([0]);
      assert Room() == room;
      RunAll(inner);
      assert Room() == room;
      var len := |buf.Contents()| - at - 1;
      WriteLength(at, len, |written|);
    }

    method WriteLength(at: nat, len: nat, ghost length: nat)
      requires Valid() && start <= at < |buf.Contents()| && len == |buf.Contents()| - at - 1 && length == at - start
      requires InsertLength(AsRef(), length, Room()).Some?
      modifies buf.Repr()
      ensures start == old(start) && Kept(old(Before()))
      ensures InsertLength(old(AsRef()), length, old(Room())) == Some(AsRef())
    {
      Inserted(buf.Contents(), at, start, Room());
      RotateIn(buf, at, len);
    }

    /** The end of `encode_vvec_with`: low byte in place, high bytes behind, rotate. */
    static method RotateIn(buf: Buffer, at: nat, len: nat)
      requires buf.Valid() && at < |buf.Contents()| && len == |buf.Contents()| - at - 1 <= MAX_VARINT
      requires Fits(buf.Room(), at + VarintLen(len) + len)
      modifies buf.Repr()
      ensures buf.Valid()
      ensures buf.Contents()
           == old(buf.Contents())[..at] + Varint.EncodeVarint(len) + old(buf.Contents())[at + 1..]
    {
      ghost var c := buf.Contents();
      AndMask(len, 8);
      assert Pow2(8) == 256;
      var low: byte := BitAnd(len, 0xff);
      buf.WriteAt(at, low);
      if len < 0x40 {
        OneByteVarint(len);
        return;
      }
      var count, high := HighCount(len).0, BitOr(Shr(len, 8), HighCount(len).1);
      VarintSplit(len);
      RotateTrick(c, at, ToBE(high, count), low);
      LowBytes(high, 8, count);
      buf.WriteAll(ToBE(high, 8)[8 - count..]);
      buf.RotateRight(at, count);
    }

    /** Run a sequence of calls. */
    method RunAll(ops: seq<Op>)
      requires Valid() && ApplyAll(ops, AsRef(), Room()).Some?
      modifies buf.Repr()
      ensures start == old(start) && Kept(old(Before()))
      ensures ApplyAll(ops, old(AsRef()), old(Room())) == Some(AsRef())
      decreases ops, 1
    {
      if ops != [] {
        Run(ops[0]);
        RunAll(ops[1..]);
      }
    }

    method Run(op: Op)
      requires Valid() && Apply(op, AsRef(), Room()).Some?
      modifies buf.Repr()
      ensures start == old(start) && Kept(old(Before()))
      ensures Apply(op, old(AsRef()), old(Room())) == Some(AsRef())
      decreases op, 3
    {
      match op {
        case Bytes(data) => Encode(data);
        case Uint(n, value) => EncodeUint(n, value);
        case VarintOp(value) => EncodeVarint(value);
        case Vvec(data) => EncodeVvec(data);
        case VvecWith(inner) => EncodeVvecWith(inner);
        case PadTo(len, fill) => if len > |AsRef()| { PadTo(len, fill); }
        case Truncate(len) => Truncate(len);
      }
    }
  }

  lemma Sliced(was: seq<byte>, data: seq<byte>, start: nat)
    requires start <= |was|
    ensures (was + data)[..start] == was[..start] && (was + data)[start..] == was[start..] + data
  {
  }

  lemma {:induction false} LowBytes(v: nat, n: nat, k: nat)
    requires k <= n
    ensures ToBE(v, n)[n - k..] == ToBE(v, k)
    decreases k
  {
    if k > 0 {
      LowBytes(v / 256, n - 1, k - 1);
    }
  }

  // ----- Consequences -----

  /** A run that fits a slice does on it what it does on a vector. */
  lemma {:induction false} RoomIrrelevant(ops: seq<Op>, s: seq<byte>, n: nat)
    requires ApplyAll(ops, s, Some(n)).Some?
    ensures ApplyAll(ops, s, None) == ApplyAll(ops, s, Some(n))
    decreases ops, 0
  {
    if ops != [] {
      RoomIrrelevantOne(ops[0], s, n);
      RoomIrrelevant(ops[1..], Apply(ops[0], s, None).value, n);
    }
  }

  lemma {:induction false} RoomIrrelevantOne(op: Op, s: seq<byte>, n: nat)
    requires Apply(op, s, Some(n)).Some?
    ensures Apply(op, s, None) == Apply(op, s, Some(n))
    decreases op, 1
  {
    if op.VvecWith? {
      RoomIrrelevant(op.inner, s + [0], n);
    }
  }

  /** No call in the run, nested ones included, gives up bytes. */
  predicate AppendOnly(ops: seq<Op>)
    decreases ops
  {
    ops == [] || (AppendOnlyOne(ops[0]) && AppendOnly(ops[1..]))
  }

  predicate AppendOnlyOne(op: Op)
    decreases op
  {
    match op
    case Truncate(_) => false
    case VvecWith(inner) => AppendOnly(inner)
    case _ => true
  }

  lemma {:induction false} AppendOnlyExtends(ops: seq<Op>, s: seq<byte>)
    requires AppendOnly(ops) && ApplyAll(ops, s, None).Some?
    ensures s <= ApplyAll(ops, s, None).value
    decreases ops, 0
  {
    if ops != [] {
      AppendOnlyExtendsOne(ops[0], s);
      AppendOnlyExtends(ops[1..], Apply(ops[0], s, None).value);
    }
  }

  lemma {:induction false} AppendOnlyExtendsOne(op: Op, s: seq<byte>)
    requires AppendOnlyOne(op) && Apply(op, s, None).Some?
    ensures s <= Apply(op, s, None).value
    decreases op, 1
  {
    if op.VvecWith? {
      AppendOnlyExtends(op.inner, s + [0]);
    }
  }

  /** For a closure that only appends, `encode_vvec_with` is `encode_vvec` of the bytes it wrote. */
  lemma VvecWithIsVvec(inner: seq<Op>, s: seq<byte>) returns (body: seq<byte>)
    requires AppendOnly(inner) && Apply(VvecWith(inner), s, None).Some?
    ensures ApplyAll(inner, s + [0], None) == Some(s + [0] + body)
    ensures Apply(VvecWith(inner), s, None) == Apply(Vvec(body), s, None)
  {
    AppendOnlyExtends(inner, s + [0]);
    var written := ApplyAll(inner, s + [0], None).value;
    body := written[|s| + 1..];
    assert written == s + [0] + body;
    VvecWithWrote(inner, s, body);
  }

  lemma VvecWithWrote(inner: seq<Op>, s: seq<byte>, body: seq<byte>)
    requires ApplyAll(inner, s + [0], None) == Some(s + [0] + body)
    ensures Apply(VvecWith(inner), s, None) == InsertLength(s + [0] + body, |s|, None)
    ensures Apply(VvecWith(inner), s, None) == Apply(Vvec(body), s, None)
  {
    if |body| <= MAX_VARINT {
      InsertAppended(s, body);
    }
  }

  lemma InsertAppended(s: seq<byte>, body: seq<byte>)
    requires |body| <= MAX_VARINT
    ensures InsertLength(s + [0] + body, |s|, None) == Some(s + (EncodeVarint(|body|) + body))
  {
    var w := s + [0] + body;
    assert w[..|s|] == s && w[|s| + 1..] == body;
    ConcatAssoc(s, EncodeVarint(|body|), body);
  }

  /** Reading back a length-prefixed string returns it and leaves exactly the rest. */
  lemma VvecRoundTrip(data: seq<byte>, rest: seq<byte>)
    requires |data| <= MAX_VARINT
    ensures var wire := EncodeVarint(|data|) + data + rest;
            var p := ParseVarint(wire);
            && p == Some(Parsed(|data|, VarintLen(|data|)))
            && wire[p.value.size..][..|data|] == data
            && wire[p.value.size..][|data|..] == rest
  {
    var prefix := EncodeVarint(|data|);
    VarintRoundTrip(|data|, data + rest);
    ConcatAssoc(prefix, data, rest);
    var wire := prefix + (data + rest);
    assert wire[|prefix|..] == data + rest;
  }
}
