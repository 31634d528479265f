/** Decoders that take their input in pieces. Each keeps, as a ghost, the bytes it has been given, and
    promises the result that decoding those bytes at once would give.
 */
module IncrementalDecoders {
  import opened Bits
  import opened Varint
  import opened Decoders

  /** A prefix of a varint, without the size bits. */
  ghost function PartialValue(got: seq<byte>): nat
    requires got != []
  {
    Low(FromBE(got), 8 * |got| - 2)
  }

  /** Appending bytes to a partial value shifts it and or-s them in. */
  lemma PartialAppend(got: seq<byte>, more: seq<byte>)
    requires got != []
    ensures PartialValue(got + more) == BitOr(Shl(PartialValue(got), 8 * |more|), FromBE(more))
  {
    LowAppend(got, more, 8 * |got| - 2, 8 * |more|, 8 * |got + more| - 2);
  }

  lemma LowAppend(got: seq<byte>, more: seq<byte>, k: nat, m: nat, n: nat)
    requires m == 8 * |more| && n == k + m
    ensures Low(FromBE(got + more), n) == BitOr(Shl(Low(FromBE(got), k), m), FromBE(more))
  {
    FromBEConcat(got, more);
    LowOfShifted(FromBE(got), k, FromBE(more), m);
  }

  lemma LowOfShifted(w: nat, k: nat, x: nat, m: nat)
    requires x < Pow2(m)
    ensures Low(Shl(w, m) + x, k + m) == BitOr(Shl(Low(w, k), m), x)
  {
    var c, l := Shr(w, k), Low(w, k);
    HighLow(w, k);
    ShlSum(Shl(c, k), l, m);
    ShlAdd(c, k, m);
    ShlBound(l, k, m);
    ShlParts(c, Shl(l, m) + x, k + m);
    OrDisjoint(l, x, m);
  }

  lemma PartialFirst(b: byte)
    ensures PartialValue([b]) == BitAnd(b, 0x3f)
  {
    assert [b][..0] == [];
    assert Pow2(6) == 0x40;
    AndMask(b, 6);
  }

  /** What has arrived of a varint decides whether it is complete, and then its value. */
  lemma Complete(got: seq<byte>)
    requires got != [] && |got| <= SizeOf(got[0])
    ensures ParseVarint(got)
         == if |got| == SizeOf(got[0]) then Some(Parsed(PartialValue(got), |got|)) else None
  {
    if |got| == SizeOf(got[0]) {
      assert got[..|got|] == got;
    }
  }

  lemma PartialBound(got: seq<byte>)
    requires 1 <= |got| <= 8
    ensures PartialValue(got) <= MAX_VARINT
  {
    Pow2Values();
    Pow2Monotone(8 * |got| - 2, 62);
  }

  class IncrementalDecoderUint {
    var v: nat
    var remaining: Option<nat>
    ghost var got: seq<byte>

    ghost predicate Valid()
      reads this
    {
      match remaining
      case None => got == []
      case Some(r) => got != [] && |got| + r == SizeOf(got[0]) && v == PartialValue(got)
    }

    constructor ()
      ensures Valid() && got == [] && remaining == None
    {
      v, remaining, got := 0, None, [];
    }

    function MinRemaining(): (n: nat)
      reads this
    {
      if remaining.Some? then remaining.value else 1
    }

    /** Take what is needed, at most what is there. */
    method Consume(dv: Decoder) returns (r: Option<nat>)
      requires Valid() && remaining != Some(0)
      requires dv.Valid() && dv.Remaining() > 0
      modifies this, dv
      ensures Valid() && dv.Valid()
      ensures var n := Min(old(MinRemaining()), |old(dv.Rest())|);
              && got == old(got) + old(dv.Rest())[..n]
              && dv.Rest() == old(dv.Rest())[n..]
      ensures remaining == Some(SizeOf(got[0]) - |got|) && v <= MAX_VARINT
      ensures match ParseVarint(got)
              case None => r == None && MinRemaining() > 0
              case Some(p) => r == Some(p.value) && p.size == |got| && MinRemaining() == 0
    {
      if remaining.Some? {
        ConsumeMore(dv);
      } else {
        ConsumeFirst(dv);
      }
      PartialBound(got);
      Complete(got);
      if remaining.value == 0 {
        return Some(v);
      }
      return None;
    }

    /** Take all of a piece that is no longer than what is certainly needed. */
    method ConsumePiece(x: seq<byte>) returns (r: Option<nat>)
      requires Valid() && remaining != Some(0) && 0 < |x| <= MinRemaining()
      modifies this
      ensures Valid() && got == old(got) + x
      ensures r == None ==> ParseVarint(got) == None && remaining != Some(0)
      ensures r.Some? ==> ParseVarint(got) == Some(Parsed(r.value, |got|))
    {
      var dv := new Decoder(x);
      assert x[..|x|] == x;
      r := Consume(dv);
    }

    method ConsumeMore(dv: Decoder)
      requires Valid() && remaining.Some? && remaining.value > 0
      requires dv.Valid() && dv.Remaining() > 0
      modifies this, dv
      ensures Valid() && remaining.Some? && dv.Valid()
      ensures var n := Min(old(remaining).value, |old(dv.Rest())|);
              && got == old(got) + old(dv.Rest())[..n]
              && dv.Rest() == old(dv.Rest())[n..]
    {
      var amount := Min(remaining.value, dv.Remaining());
      ghost var more := dv.Rest()[..amount];
      PartialAppend(got, more);
      if amount < 8 {
        v := Shl(v, amount * 8);
      }
      var x := dv.DecodeN(amount);
      v := BitOr(v, x.value);
      got := got + more;
      remaining := Some(remaining.value - amount);
    }

    method ConsumeFirst(dv: Decoder)
      requires Valid() && remaining.None?
      requires dv.Valid() && dv.Remaining() > 0
      modifies this, dv
      ensures Valid() && remaining.Some? && dv.Valid()
      ensures got == old(dv.Rest())[..1] && dv.Rest() == old(dv.Rest())[1..]
    {
      ghost var first: byte := dv.Rest()[0];
      assert dv.Rest()[..1] == [first] && [first][..0] == [];
      var b := dv.DecodeN(1);
      PartialFirst(first);
      v := BitAnd(b.value, 0x3f);
      remaining := Some(match b.value / 64 case 0 => 0 case 1 => 1 case 2 => 3 case _ => 7);
      got := [first];
    }
  }

  /** Feed one piece until it is used up or the varint is complete. */
  method Feed(dec: IncrementalDecoderUint, piece: seq<byte>) returns (r: Option<nat>, used: nat)
    requires dec.Valid() && dec.remaining != Some(0)
    modifies dec
    ensures dec.Valid() && used <= |piece| && dec.got == old(dec.got) + piece[..used]
    ensures r == None ==> used == |piece| && dec.remaining != Some(0)
    ensures r.Some? ==> ParseVarint(dec.got) == Some(Parsed(r.value, |dec.got|))
  {
    var dv := new Decoder(piece);
    r := None;
    while r == None && dv.Remaining() > 0
      invariant fresh(dv) && dv.Valid() && dv.buf == piece && dec.Valid()
      invariant dec.got == old(dec.got) + piece[..dv.offset]
      invariant r == None ==> dec.remaining != Some(0)
      invariant r.Some? ==> ParseVarint(dec.got) == Some(Parsed(r.value, |dec.got|))
      decreases r == None, dv.Remaining()
    {
      r := FeedOnce(dec, dv, old(dec.got));
    }
    used := dv.offset;
  }

  method FeedOnce(dec: IncrementalDecoderUint, dv: Decoder, ghost got: seq<byte>) returns (r: Option<nat>)
    requires dec.Valid() && dec.remaining != Some(0) && dv.Valid() && dv.Remaining() > 0
    requires dec.got == got + dv.buf[..dv.offset]
    modifies dec, dv
    ensures dec.Valid() && dv.Valid() && dv.offset > old(dv.offset) && dec.got == got + dv.buf[..dv.offset]
    ensures r == None ==> dec.remaining != Some(0)
    ensures r.Some? ==> ParseVarint(dec.got) == Some(Parsed(r.value, |dec.got|))
  {
    ghost var k, n := dv.offset, Min(dec.MinRemaining(), dv.Remaining());
    Advance(got, dv.buf, k, n);
    r := dec.Consume(dv);
    assert dv.offset == k + n;
  }

  lemma Advance(got: seq<byte>, piece: seq<byte>, k: nat, n: nat)
    requires k + n <= |piece|
    ensures got + piece[..k] + piece[k..][..n] == got + piece[..k + n]
    ensures |piece[k..][n..]| == |piece| - k - n
  {
  }

  /** Feed a varint in pieces: the value, and how many bytes it took, do not depend on the pieces. */
  method DecodeChunks(chunks: seq<seq<byte>>) returns (r: Option<nat>, used: nat)
    ensures match ParseVarint(Flatten(chunks))
            case None => r == None && used == |Flatten(chunks)|
            case Some(p) => r == Some(p.value) && used == p.size
  {
    var dec := new IncrementalDecoderUint();
    used := 0;
    for i := 0 to |chunks|
      invariant fresh(dec) && dec.Valid() && dec.remaining != Some(0)
      invariant Flatten(chunks) == dec.got + Flatten(chunks[i..]) && used == |dec.got|
    {
      assert chunks[i..][1..] == chunks[i + 1..];
      ghost var got, later := dec.got, Flatten(chunks[i + 1..]);
      var n;
      r, n := Feed(dec, chunks[i]);
      MoveOver(got, chunks[i], later, n);
      used := used + n;
      if r.Some? {
        ParsePrefix(dec.got, chunks[i][n..] + later);
        return;
      }
      assert chunks[i][n..] + later == later;
    }
    assert chunks[|chunks|..] == [];
    assert dec.got + [] == dec.got;
    if dec.got != [] {
      Complete(dec.got);
    }
    r := None;
  }

  lemma MoveOver(got: seq<byte>, rest: seq<byte>, later: seq<byte>, n: nat)
    requires n <= |rest|
    ensures got + (rest + later) == (got + rest[..n]) + (rest[n..] + later)
  {
  }

  class IncrementalDecoderBuffer {
    var v: seq<byte>
    var remaining: nat
    ghost var got: seq<byte>
    ghost const size: nat

    ghost predicate Valid()
      reads this
    {
      |got| + remaining == size && (remaining > 0 ==> v == got)
    }

    constructor (n: nat)
      ensures Valid() && got == [] && size == n && v == []
    {
      v, remaining, got, size := [], n, [], n;
    }

    /** `v` still holds the bytes (it is moved out with the result). */
    method Consume(dv: Decoder) returns (r: Option<seq<byte>>)
      requires Valid() && v == got && dv.Valid()
      modifies this, dv
      ensures Valid() && dv.Valid()
      ensures var n := Min(old(remaining), |old(dv.Rest())|);
              got == old(got) + old(dv.Rest())[..n] && dv.Rest() == old(dv.Rest())[n..]
      ensures if |got| == size then r == Some(got) && v == [] else r == None && v == got
    {
      var amount := Min(remaining, dv.Remaining());
      var b := dv.Decode(amount);
      v := v + b.value;
      got := got + b.value;
      remaining := remaining - amount;
      if remaining == 0 {
        r := Some(v);
        v := [];
      } else {
        r := None;
      }
    }

    /** Take all of a piece that is no longer than what is needed. */
    method ConsumePiece(x: seq<byte>) returns (r: Option<seq<byte>>)
      requires Valid() && v == got && |x| <= remaining
      modifies this
      ensures Valid() && got == old(got) + x
      ensures if |got| == size then r == Some(got) && v == [] else r == None && v == got
    {
      var dv := new Decoder(x);
      assert x[..|x|] == x;
      r := Consume(dv);
    }
  }

  class IncrementalDecoderIgnore {
    var remaining: nat

    constructor (n: nat)
      requires n != 0
      ensures remaining == n
    {
      remaining := n;
    }

    method Consume(dv: Decoder) returns (done: bool)
      requires dv.Valid()
      modifies this, dv
      ensures dv.Valid()
      ensures var n := Min(old(remaining), |old(dv.Rest())|);
              remaining == old(remaining) - n && dv.Rest() == old(dv.Rest())[n..]
      ensures done <==> remaining == 0
    {
      var amount := Min(remaining, dv.Remaining());
      var _ := dv.Decode(amount);
      remaining := remaining - amount;
      done := remaining == 0;
    }
  }
}
