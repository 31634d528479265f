/** The read cursor over a byte string that every parser of the stack uses. */
module Decoders {
  import opened Bits
  import opened Varint

  class Decoder {
    const buf: seq<byte>
    var offset: nat

    ghost predicate Valid()
      reads this
    {
      offset <= |buf|
    }

    /** The bytes that have not been decoded yet. */
    function Rest(): (r: seq<byte>)
      requires Valid()
      reads this
    {
      buf[offset..]
    }

    function Remaining(): nat
      requires Valid()
      reads this
    {
      |buf| - offset
    }

    constructor (data: seq<byte>)
      ensures Valid() && buf == data && offset == 0 && Rest() == data
    {
      buf, offset := data, 0;
    }

    method Decode(n: nat) returns (r: Option<seq<byte>>)
      requires Valid()
      modifies this
      ensures Valid()
      ensures n <= |old(Rest())| ==> r == Some(old(Rest())[..n]) && Rest() == old(Rest())[n..]
      ensures n > |old(Rest())| ==> r == None && offset == old(offset)
    {
      if Remaining() < n {
        return None;
      }
      assert buf[offset..offset + n] == Rest()[..n];
      r := Some(buf[offset..offset + n]);
      offset := offset + n;
    }

    /** A big-endian number of n bytes, assembled in a zeroed buffer of eight. */
    method DecodeN(n: nat) returns (r: Option<nat>)
      requires Valid() && 1 <= n <= 8
      modifies this
      ensures Valid()
      ensures n <= |old(Rest())| ==> r == Some(FromBE(old(Rest())[..n])) && Rest() == old(Rest())[n..]
      ensures n > |old(Rest())| ==> r == None && offset == old(offset)
    {
      if Remaining() < n {
        return None;
      }
      var bytes := buf[offset..offset + n];
      assert bytes == Rest()[..n];
      if n == 1 {
        assert bytes[..0] == [];
        r := Some(bytes[0]);
      } else {
        LeadingZeros(8 - n, bytes);
        r := Some(FromBE(Zeros(8 - n) + bytes));
      }
      offset := offset + n;
    }

    method DecodeVarint() returns (r: Option<nat>)
      requires Valid()
      modifies this
      ensures Valid()
      ensures match ParseVarint(old(Rest()))
              case None => r == None && offset == old(offset)
              case Some(p) => r == Some(p.value) && Rest() == old(Rest())[p.size..]
    {
      if offset == |buf| {
        return None;
      }
      var first := buf[offset];
      var rest := Rest();
      if first < 0x40 {
        assert rest[..1] == [first] && [first][..0] == [];
        assert Pow2(6) == 0x40;
        LowSmall(first, 6);
        offset := offset + 1;
        return Some(first);
      }
      if first < 0x80 {
        r := Masked(rest, 2, 0x3fff);
        if r.Some? {
          offset := offset + 2;
        }
        return;
      }
      if first < 0xc0 {
        r := Masked(rest, 4, 0x3fff_ffff);
        if r.Some? {
          offset := offset + 4;
        }
        return;
      }
      r := Masked(rest, 8, MAX_VARINT);
      if r.Some? {
        offset := offset + 8;
      }
    }

    /** Load the first n bytes as a number and mask off the size bits. */
    static method Masked(rest: seq<byte>, n: nat, mask: nat) returns (r: Option<nat>)
      requires rest != [] && n == SizeOf(rest[0])
      requires (n == 2 && mask == 0x3fff) || (n == 4 && mask == 0x3fff_ffff) || (n == 8 && mask == MAX_VARINT)
      ensures match ParseVarint(rest)
              case None => r == None
              case Some(p) => r == Some(p.value) && p.size == n
    {
      if |rest| < n {
        return None;
      }
      var v := FromBE(rest[..n]);
      assert mask == Pow2(8 * n - 2) - 1 by {
        Pow2Values();
      }
      AndMask(v, 8 * n - 2);
      return Some(BitAnd(v, mask));
    }

    method DecodeRemainder() returns (r: seq<byte>)
      requires Valid()
      modifies this
      ensures Valid() && r == old(Rest()) && Rest() == []
    {
      r := buf[offset..];
      offset := |buf|;
    }

    /** A byte string behind a varint length. A length that runs past the end is consumed, the bytes are not,
        unless the length is more than a `usize` can hold: then everything is. */
    method DecodeVvec(maxUsize: nat := 0xffff_ffff_ffff_ffff) returns (r: Option<seq<byte>>)
      requires Valid()
      modifies this
      ensures Valid()
      ensures match ParseVarint(old(Rest()))
              case None => r == None && offset == old(offset)
              case Some(p) =>
                var body := old(Rest())[p.size..];
                if p.value > maxUsize then r == None && Rest() == []
                else if p.value <= |body|
                then r == Some(body[..p.value]) && Rest() == body[p.value..]
                else r == None && Rest() == body
    {
      var n := DecodeVarint();
      if n == None {
        return None;
      }
      if n.value > maxUsize {
        offset := |buf|;
        return None;
      }
      r := Decode(n.value);
    }

    /** Count and skip leading bytes equal to `b`: bytewise up to the first aligned address (`align` bytes
        away), then sixteen at a time, then bytewise. */
    method SkipWhile(b: byte, align: nat) returns (n: nat)
      requires Valid()
      modifies this
      ensures Valid() && n <= |old(Rest())| && Rest() == old(Rest())[n..]
      ensures forall i :: 0 <= i < n ==> old(Rest())[i] == b
      ensures n < |old(Rest())| ==> old(Rest())[n] != b
    {
      var rest := Rest();
      var head := Min(align, |rest|);
      n := Position(rest, 0, head, b);
      if n == head {
        n := ChunkPosition(rest, head, b);
        n := Position(rest, n, |rest|, b);
      }
      offset := offset + n;
    }

    /** The first index in lo..hi that does not hold b, or hi. */
    static method Position(s: seq<byte>, lo: nat, hi: nat, b: byte) returns (n: nat)
      requires lo <= hi <= |s| && forall i :: 0 <= i < lo ==> s[i] == b
      ensures lo <= n <= hi && forall i :: 0 <= i < n ==> s[i] == b
      ensures n < hi ==> s[n] != b
    {
      n := lo;
      while n < hi && s[n] == b
        invariant lo <= n <= hi
        invariant forall i :: 0 <= i < n ==> s[i] == b
      {
        n := n + 1;
      }
    }

    static method ChunkPosition(s: seq<byte>, head: nat, b: byte) returns (n: nat)
      requires head <= |s| && forall i :: 0 <= i < head ==> s[i] == b
      ensures head <= n <= |s| && forall i :: 0 <= i < n ==> s[i] == b
    {
      n := head;
      var chunk := seq(16, _ => b);
      while n + 16 <= |s| && s[n..n + 16] == chunk
        invariant head <= n <= |s|
        invariant forall i :: 0 <= i < n ==> s[i] == b
      {
        forall i | n <= i < n + 16
          ensures s[i] == b
        {
          assert s[i] == s[n..n + 16][i - n];
        }
        n := n + 16;
      }
    }
  }

  function Zeros(n: nat): (s: seq<byte>)
    ensures |s| == n
  {
    seq(n, _ => 0)
  }

  lemma {:induction false} ZerosValue(n: nat)
    ensures FromBE(Zeros(n)) == 0
  {
    if n > 0 {
      assert Zeros(n)[..n - 1] == Zeros(n - 1);
      ZerosValue(n - 1);
    }
  }

  lemma {:induction false} ShlZero(n: nat)
    ensures Shl(0, n) == 0
  {
    if n > 0 {
      ShlZero(n - 1);
    }
  }

  lemma LeadingZeros(n: nat, s: seq<byte>)
    ensures FromBE(Zeros(n) + s) == FromBE(s)
  {
    FromBEConcat(Zeros(n), s);
    ZerosValue(n);
    ShlZero(8 * |s|);
  }
}
