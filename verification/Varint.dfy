/** Variable-length integers (section 16 of RFC 9000): the two top bits of the first byte give the size,
    1, 2, 4 or 8 bytes, and the rest is a big-endian number below 2^62.
 */
module Varint {
  import opened Bits

  const MAX_VARINT: nat := 0x3fff_ffff_ffff_ffff

  type varint = v: nat | v <= MAX_VARINT

  function VarintLen(v: varint): (n: nat)
    ensures n in {1, 2, 4, 8}
  {
    if v < 0x40 then 1
    else if v < 0x4000 then 2
    else if v < 0x4000_0000 then 4
    else 8
  }

  function EncodeVarint(v: varint): (s: seq<byte>)
    ensures |s| == VarintLen(v)
  {
    if v < 0x40 then [v]
    else if v < 0x4000 then ToBE(BitOr(v, Shl(1, 14)), 2)
    else if v < 0x4000_0000 then ToBE(BitOr(v, Shl(2, 30)), 4)
    else ToBE(BitOr(v, Shl(3, 62)), 8)
  }

  datatype Parsed = Parsed(value: nat, size: nat)

  /** The size that the first byte announces. */
  function SizeOf(first: byte): (n: nat)
    ensures n in {1, 2, 4, 8}
  {
    SizeOfCode(first / 64)
  }

  function SizeOfCode(c: nat): (n: nat)
    ensures n in {1, 2, 4, 8}
  {
    if c == 0 then 1 else if c == 1 then 2 else if c == 2 then 4 else 8
  }

  /** The reference decoder: the announced number of bytes, without the two top bits. */
  function ParseVarint(s: seq<byte>): (r: Option<Parsed>)
    ensures r.Some? ==> r.value.size <= |s| && r.value.value <= MAX_VARINT
  {
    if s == [] || |s| < SizeOf(s[0]) then None
    else
      var n := SizeOf(s[0]);
      ParsedBound(s[..n]);
      Some(Parsed(Low(FromBE(s[..n]), 8 * n - 2), n))
  }

  lemma ParsedBound(s: seq<byte>)
    requires |s| in {1, 2, 4, 8}
    ensures Low(FromBE(s), 8 * |s| - 2) <= MAX_VARINT
  {
    Pow2Values();
    Pow2Monotone(8 * |s| - 2, 62);
  }

  /** The first byte of a big-endian number is its top byte. */
  lemma {:induction false} FirstByte(w: nat, n: nat)
    requires n >= 1
    ensures ToBE(w, n)[0] == Low(Shr(w, 8 * (n - 1)), 8)
    decreases n
  {
    if n == 1 {
      LowByte(w);
      assert ToBE(w, 1) == ToBE(w / 256, 0) + [w % 256];
    } else {
      FirstByte(w / 256, n - 1);
      ShrByte(w);
      ShrAdd(w, 8, 8 * (n - 2));
    }
  }

  /** Shifting by a byte and masking one are division and remainder. */
  lemma ByteParts(w: nat, n: nat)
    requires Pow2(n) == 256
    ensures Shr(w, n) == w / 256 && Low(w, n) == w % 256
  {
    HighLow(w, n);
    ShlMul(Shr(w, n), n);
  }

  lemma LowByte(w: nat)
    ensures Low(w, 8) == w % 256
  {
    ByteParts(w, 8);
  }

  lemma ShrByte(w: nat)
    ensures Shr(w, 8) == w / 256
  {
    ByteParts(w, 8);
  }

  /** A size code c above a value of k = 8n - 2 bits: what the first byte and the whole number are. */
  lemma TaggedValue(c: nat, n: nat, k: nat, v: nat)
    requires c < 4 && n >= 1 && k == 8 * n - 2 && v < Pow2(k)
    ensures var w := Shl(c, k) + v;
            && ToBE(w, n)[0] / 64 == c
            && FromBE(ToBE(w, n)) == w
            && Low(w, k) == v
  {
    var w := Shl(c, k) + v;
    ShlParts(c, v, k);
    TaggedBound(c, 2, k, v);
    FromToBE(w, n);
    FirstByte(w, n);
    TopByte(c, k, 8 * (n - 1), v);
  }

  lemma TaggedBound(c: nat, m: nat, k: nat, v: nat)
    requires c < 4 == Pow2(m) && v < Pow2(k)
    ensures Shl(c, k) + v < Pow2(m + k)
  {
    ShlBound(c, m, k);
  }

  lemma TopByte(c: nat, k: nat, j: nat, v: nat)
    requires c < 4 && k == 6 + j && v < Pow2(k)
    ensures Low(Shr(Shl(c, k) + v, j), 8) / 64 == c
  {
    var h := TopPart(c, 6, j, v);
    LowByte(64 * c + h);
    TopBits(c, h);
  }

  lemma TopBits(c: nat, h: nat)
    requires c < 4 && h < 64
    ensures (64 * c + h) % 256 / 64 == c
  {
  }

  /** The top of a number with c above n + k bits, from its bit k on. */
  lemma TopPart(c: nat, n: nat, k: nat, v: nat) returns (h: nat)
    requires Pow2(n) == 64 && v < Pow2(n + k)
    ensures Shr(Shl(c, n + k) + v, k) == 64 * c + h && h < 64
  {
    h := Shr(v, k);
    var l := Low(v, k);
    HighLow(v, k);
    ShrBound(v, n, k);
    ShlAdd(c, n, k);
    ShlMul(c, n);
    ShlSum(64 * c, h, k);
    ShlParts(64 * c + h, l, k);
  }

  lemma ParseWhole(s: seq<byte>, rest: seq<byte>)
    requires s != [] && |s| == SizeOf(s[0])
    ensures ParseVarint(s + rest) == Some(Parsed(Low(FromBE(s), 8 * |s| - 2), |s|))
  {
  }

  lemma TaggedForm(c: nat, n: nat, k: nat, v: nat)
    requires c < 4 && n >= 1 && k == 8 * n - 2 && v < Pow2(k)
    ensures var s := ToBE(BitOr(v, Shl(c, k)), n);
            s[0] / 64 == c && Low(FromBE(s), k) == v
  {
    OrDisjoint(c, v, k);
    TaggedValue(c, n, k, v);
  }

  ghost predicate Announces(s: seq<byte>, v: nat) {
    s != [] && |s| == SizeOf(s[0]) && Low(FromBE(s), 8 * |s| - 2) == v
  }

  lemma TaggedAnnounces(s: seq<byte>, c: nat, n: nat, k: nat, v: nat)
    requires c < 4 && n == SizeOfCode(c) && k == 8 * n - 2 && v < Pow2(k) && s == ToBE(BitOr(v, Shl(c, k)), n)
    ensures Announces(s, v)
  {
    TaggedForm(c, n, k, v);
  }

  lemma OneByte(v: nat, k: nat)
    requires v < 0x40 == Pow2(k) && k == 6
    ensures Announces([v], v)
  {
    LowSmall(v, k);
    assert [v][..0] == [];
  }

  /** The encoding announces its own size and holds the value below the two top bits. */
  lemma EncodedForm(v: varint)
    ensures Announces(EncodeVarint(v), v)
  {
    Pow2Values();
    if v < 0x40 {
      OneByte(v, 6);
    } else if v < 0x4000 {
      TaggedAnnounces(EncodeVarint(v), 1, 2, 14, v);
    } else if v < 0x4000_0000 {
      TaggedAnnounces(EncodeVarint(v), 2, 4, 30, v);
    } else {
      TaggedAnnounces(EncodeVarint(v), 3, 8, 62, v);
    }
  }

  lemma FourBytes(w: nat, n: nat)
    requires n == 4
    ensures ToBE(w, n) == [w / 256 / 256 / 256 % 256, w / 256 / 256 % 256, w / 256 % 256, w % 256]
  {
    var a, b, c := w / 256, w / 256 / 256, w / 256 / 256 / 256;
    assert ToBE(c, n - 3) == ToBE(c / 256, n - 4) + [c % 256];
    assert ToBE(b, n - 2) == ToBE(c, n - 3) + [b % 256];
    assert ToBE(a, n - 1) == ToBE(b, n - 2) + [a % 256];
  }

  lemma FourByteForm(v: nat, c: nat, k: nat, n: nat)
    requires n == 4 && c == 2 && Pow2(k) == 0x4000_0000 && v < 0x4000_0000
    ensures ToBE(BitOr(v, Shl(c, k)), n)
         == [0x80 + v / 256 / 256 / 256, v / 256 / 256 % 256, v / 256 % 256, v % 256]
  {
    OrDisjoint(c, v, k);
    ShlMul(c, k);
    FourBytes(0x8000_0000 + v, n);
    TaggedBytes(v);
  }

  lemma TaggedBytes(v: nat)
    requires v < 0x4000_0000
    ensures var w := 0x8000_0000 + v;
            && w % 256 == v % 256 && w / 256 % 256 == v / 256 % 256 && w / 256 / 256 % 256 == v / 256 / 256 % 256
            && w / 256 / 256 / 256 % 256 == 0x80 + v / 256 / 256 / 256
  {
    NextByte(0x80_0000, v);
    NextByte(0x8000, v / 256);
    NextByte(0x80, v / 256 / 256);
  }

  lemma NextByte(x: nat, v: nat)
    ensures (256 * x + v) / 256 == x + v / 256 && (256 * x + v) % 256 == v % 256
  {
  }

  lemma EncodeFour(v: varint)
    requires 0x4000 <= v < 0x4000_0000
    ensures EncodeVarint(v) == [0x80 + v / 256 / 256 / 256, v / 256 / 256 % 256, v / 256 % 256, v % 256]
  {
    Pow2Values();
    FourByteForm(v, 2, 30, 4);
  }

  /** The four-byte form, in numbers. */
  lemma EncodedInFour(v: varint, a: byte, b: byte, c: byte, d: byte)
    requires a < 0x40 && v == 256 * (256 * (256 * a + b) + c) + d && v >= 0x4000
    ensures EncodeVarint(v) == [0x80 + a, b, c, d]
  {
    FourDigits(v, a, b, c, d);
    EncodeFour(v);
  }

  lemma FourDigits(v: nat, a: byte, b: byte, c: byte, d: byte)
    requires v == 256 * (256 * (256 * a + b) + c) + d
    ensures v % 256 == d && v / 256 % 256 == c && v / 256 / 256 % 256 == b && v / 256 / 256 / 256 == a
  {
    NextByte(256 * (256 * a + b) + c, d);
    NextByte(256 * a + b, c);
    NextByte(a, b);
  }

  /** Decoding an encoded varint returns the value and consumes exactly its bytes. */
  lemma VarintRoundTrip(v: varint, rest: seq<byte>)
    ensures ParseVarint(EncodeVarint(v) + rest) == Some(Parsed(v, |EncodeVarint(v)|))
  {
    EncodedForm(v);
    ParseWhole(EncodeVarint(v), rest);
  }

  /** A varint is decided by its own bytes: more input does not change it, and less is not enough. */
  lemma ParsePrefix(s: seq<byte>, rest: seq<byte>)
    ensures ParseVarint(s).Some? ==> ParseVarint(s + rest) == ParseVarint(s)
    ensures s != [] && |s| < SizeOf(s[0]) ==> ParseVarint(s).None?
  {
    if s != [] {
      var n := SizeOf(s[0]);
      if n <= |s| {
        assert (s + rest)[..n] == s[..n];
      }
    }
  }

  /** The size is the smallest that holds the value. */
  lemma Shortest(s: seq<byte>)
    requires ParseVarint(s).Some?
    ensures VarintLen(ParseVarint(s).value.value) <= ParseVarint(s).value.size
  {
    var n := SizeOf(s[0]);
    assert ParseVarint(s).value.value < Pow2(8 * n - 2);
    Pow2Values();
  }
}
