/** Bytes, bits and the fixed-width integer operations that the wire formats are built from.

    Machine integers are natural numbers here. Shifts and bitwise operators are defined digit by
    digit, and every width limit of the original (a `u8` cast, a shift that drops bits) is written out
    where the operation is used.
 */
module Bits {
  type byte = x: int | 0 <= x < 256
  type bit = x: int | 0 <= x < 2

  datatype Option<+T> = None | Some(value: T)

  function Min(a: int, b: int): int {
    if a <= b then a else b
  }

  function Pow2(n: nat): (r: nat)
    ensures r >= 1
  {
    if n == 0 then 1 else 2 * Pow2(n - 1)
  }

  function Shl(x: nat, n: nat): nat {
    if n == 0 then x else 2 * Shl(x, n - 1)
  }

  function Shr(x: nat, n: nat): nat
    decreases n, x
  {
    if n == 0 then x else Shr(x / 2, n - 1)
  }

  /** The low n bits of x, as a number: x modulo 2^n. */
  function Low(x: nat, n: nat): (r: nat)
    ensures r < Pow2(n)
    decreases n, x
  {
    if n == 0 then 0 else 2 * Low(x / 2, n - 1) + x % 2
  }

  function BitOr(x: nat, y: nat): nat {
    if x == 0 then y
    else if y == 0 then x
    else 2 * BitOr(x / 2, y / 2) + (if x % 2 == 1 || y % 2 == 1 then 1 else 0)
  }

  function BitAnd(x: nat, y: nat): nat {
    if x == 0 || y == 0 then 0
    else 2 * BitAnd(x / 2, y / 2) + (if x % 2 == 1 && y % 2 == 1 then 1 else 0)
  }

  lemma {:induction false} Pow2Monotone(a: nat, b: nat)
    requires a <= b
    ensures Pow2(a) <= Pow2(b)
  {
    if a < b {
      Pow2Monotone(a, b - 1);
    }
  }

  lemma {:induction false} ShlAdd(x: nat, a: nat, b: nat)
    ensures Shl(x, a + b) == Shl(Shl(x, a), b)
  {
    if b > 0 {
      ShlAdd(x, a, b - 1);
    }
  }

  lemma {:induction false} ShlOne(n: nat)
    ensures Shl(1, n) == Pow2(n)
  {
    if n > 0 {
      ShlOne(n - 1);
    }
  }

  lemma {:induction false} ShlMul(x: nat, n: nat)
    ensures Shl(x, n) == x * Pow2(n)
  {
    if n > 0 {
      ShlMul(x, n - 1);
      var p := Pow2(n - 1);
      assert 2 * (x * p) == x * (2 * p);
    }
  }

  lemma {:induction false} ShlSum(x: nat, y: nat, n: nat)
    ensures Shl(x + y, n) == Shl(x, n) + Shl(y, n)
  {
    if n > 0 {
      ShlSum(x, y, n - 1);
    }
  }

  lemma {:induction false} ShrAdd(x: nat, a: nat, b: nat)
    ensures Shr(x, a + b) == Shr(Shr(x, a), b)
    decreases a
  {
    if a > 0 {
      ShrAdd(x / 2, a - 1, b);
    }
  }

  /** A value is its high part shifted up, plus its low part. */
  lemma {:induction false} HighLow(x: nat, n: nat)
    ensures x == Shl(Shr(x, n), n) + Low(x, n)
    decreases n
  {
    if n > 0 {
      HighLow(x / 2, n - 1);
    }
  }

  lemma {:induction false} ShlBound(x: nat, a: nat, n: nat)
    requires x < Pow2(a)
    ensures Shl(x, n) + Pow2(n) <= Pow2(a + n)
  {
    if n > 0 {
      ShlBound(x, a, n - 1);
      assert Pow2(a + n) == 2 * Pow2(a + n - 1);
    }
  }

  /** Splitting Shl(q, n) + r gives q and r back. */
  lemma {:induction false} ShlParts(q: nat, r: nat, n: nat)
    requires r < Pow2(n)
    ensures Shr(Shl(q, n) + r, n) == q && Low(Shl(q, n) + r, n) == r
  {
    if n > 0 {
      ShlParts(q, r / 2, n - 1);
      var v := Shl(q, n) + r;
      assert v / 2 == Shl(q, n - 1) + r / 2 && v % 2 == r % 2;
    }
  }

  lemma {:induction false} ShrBound(x: nat, a: nat, n: nat)
    requires x < Pow2(a + n)
    ensures Shr(x, n) < Pow2(a)
    decreases n
  {
    if n > 0 {
      assert Pow2(a + n) == 2 * Pow2(a + (n - 1));
      ShrBound(x / 2, a, n - 1);
    }
  }

  lemma {:induction false} LowSmall(x: nat, n: nat)
    requires x < Pow2(n)
    ensures Low(x, n) == x && Shr(x, n) == 0
    decreases n
  {
    if n > 0 {
      LowSmall(x / 2, n - 1);
    }
  }

  /** The powers of two and shifts that the formats name. */
  lemma Pow2Values()
    ensures Pow2(2) == 4 && Pow2(6) == 0x40 && Pow2(7) == 0x80 && Pow2(8) == 0x100
    ensures Pow2(14) == 0x4000 && Pow2(16) == 0x1_0000 && Pow2(22) == 0x40_0000
    ensures Pow2(24) == 0x100_0000
    ensures Pow2(30) == 0x4000_0000 && Pow2(32) == 0x1_0000_0000
    ensures Pow2(54) == 0x40_0000_0000_0000 && Pow2(56) == 0x100_0000_0000_0000
    ensures Pow2(62) == 0x4000_0000_0000_0000 && Pow2(64) == 0x1_0000_0000_0000_0000
  {
    assert Pow2(12) == 0x1000;
    assert Pow2(20) == 0x10_0000;
    assert Pow2(28) == 0x1000_0000;
    assert Pow2(36) == 0x10_0000_0000;
    assert Pow2(44) == 0x1000_0000_0000;
    assert Pow2(52) == 0x10_0000_0000_0000;
    assert Pow2(60) == 0x1000_0000_0000_0000;
  }

  lemma BitOrStep(x: nat, y: nat)
    ensures BitOr(x, y) == 2 * BitOr(x / 2, y / 2) + (if x % 2 == 1 || y % 2 == 1 then 1 else 0)
  {
  }

  /** Or-ing a value into bits that are zero adds it. */
  lemma {:induction false} OrDisjoint(a: nat, b: nat, n: nat)
    requires b < Pow2(n)
    ensures BitOr(Shl(a, n), b) == Shl(a, n) + b
    ensures BitOr(b, Shl(a, n)) == Shl(a, n) + b
  {
    if n > 0 {
      OrDisjoint(a, b / 2, n - 1);
      var x := Shl(a, n - 1);
      BitOrStep(2 * x, b);
      BitOrStep(b, 2 * x);
    }
  }

  lemma BitAndStep(x: nat, y: nat)
    ensures BitAnd(x, y) == 2 * BitAnd(x / 2, y / 2) + (if x % 2 == 1 && y % 2 == 1 then 1 else 0)
  {
  }

  /** Masking with n ones keeps the low n bits. */
  lemma {:induction false} AndMask(x: nat, n: nat)
    ensures BitAnd(x, Pow2(n) - 1) == Low(x, n)
    decreases n
  {
    if n > 0 {
      AndMask(x / 2, n - 1);
      BitAndStep(x, Pow2(n) - 1);
    }
  }

  // ----- Big-endian bit sequences -----

  /** The low n bits of v, most significant first. */
  function ToBits(v: nat, n: nat): (s: seq<bit>)
    ensures |s| == n
    decreases n, v
  {
    if n == 0 then [] else ToBits(v / 2, n - 1) + [v % 2]
  }

  function FromBits(s: seq<bit>): (v: nat)
    ensures v < Pow2(|s|)
  {
    if s == [] then 0 else 2 * FromBits(s[..|s| - 1]) + s[|s| - 1]
  }

  lemma {:induction false} FromToBits(v: nat, n: nat)
    ensures FromBits(ToBits(v, n)) == Low(v, n)
    decreases n
  {
    if n > 0 {
      FromToBits(v / 2, n - 1);
      assert ToBits(v, n)[..n - 1] == ToBits(v / 2, n - 1);
    }
  }

  lemma ToBitsInjective(v: nat, w: nat, n: nat)
    requires v < Pow2(n) && w < Pow2(n) && ToBits(v, n) == ToBits(w, n)
    ensures v == w
  {
    FromToBits(v, n);
    FromToBits(w, n);
    LowSmall(v, n);
    LowSmall(w, n);
  }

  /** Bits above the n-th do not matter. */
  lemma {:induction false} ToBitsLow(v: nat, n: nat)
    ensures ToBits(Low(v, n), n) == ToBits(v, n)
    decreases n
  {
    if n > 0 {
      ToBitsLow(v / 2, n - 1);
    }
  }

  /** The high a bits and the low b bits of an (a + b)-bit value. */
  lemma {:induction false} ToBitsSplit(v: nat, a: nat, b: nat)
    ensures ToBits(v, a + b) == ToBits(Shr(v, b), a) + ToBits(v, b)
    decreases b
  {
    if b > 0 {
      ToBitsSplit(v / 2, a, b - 1);
      assert a + b - 1 == a + (b - 1);
    }
  }

  lemma ToBitsJoin(q: nat, r: nat, a: nat, b: nat)
    requires r < Pow2(b)
    ensures ToBits(Shl(q, b) + r, a + b) == ToBits(q, a) + ToBits(r, b)
  {
    var v := Shl(q, b) + r;
    ShlParts(q, r, b);
    ToBitsSplit(v, a, b);
    ToBitsLow(v, b);
  }

  lemma {:induction false} ToBitsAt(v: nat, n: nat, k: nat)
    requires k < n
    ensures ToBits(v, n)[k] == Shr(v, n - 1 - k) % 2
    decreases n
  {
    if k < n - 1 {
      ToBitsAt(v / 2, n - 1, k);
    }
  }

  function Ones(n: nat): (s: seq<bit>)
    ensures |s| == n
  {
    seq(n, _ => 1)
  }

  lemma {:induction false} ToBitsOnes(n: nat)
    ensures ToBits(Pow2(n) - 1, n) == Ones(n)
  {
    if n > 0 {
      ToBitsOnes(n - 1);
      assert (Pow2(n) - 1) / 2 == Pow2(n - 1) - 1;
      assert Ones(n) == Ones(n - 1) + [1];
    }
  }

  lemma {:induction false} LowAllOnes(v: nat, n: nat)
    ensures Low(v, n) == Pow2(n) - 1 <==> ToBits(v, n) == Ones(n)
    decreases n
  {
    if n > 0 {
      LowAllOnes(v / 2, n - 1);
      assert Ones(n) == Ones(n - 1) + [1];
      if ToBits(v, n) == Ones(n) {
        ConcatInjective(ToBits(v / 2, n - 1), [v % 2], Ones(n - 1), [1]);
        assert [v % 2][0] == 1;
      }
    }
  }

  /** The bit view of a byte string: the first bit is the top bit of the first byte. */
  function BytesToBits(s: seq<byte>): (r: seq<bit>)
    ensures |r| == 8 * |s|
  {
    if s == [] then [] else BytesToBits(s[..|s| - 1]) + ByteBits(s[|s| - 1])
  }

  function ByteBits(b: byte): (r: seq<bit>)
    ensures |r| == 8
  {
    ToBits(b, 8)
  }

  lemma ByteBitsInjective(b: byte, c: byte)
    requires ByteBits(b) == ByteBits(c)
    ensures b == c
  {
    var w: nat := 8;
    Pow2Values();
    ToBitsInjective(b, c, w);
  }

  lemma ConcatAssoc<T>(a: seq<T>, b: seq<T>, c: seq<T>)
    ensures a + b + c == a + (b + c)
  {
  }

  lemma ConcatInjective<T>(a: seq<T>, b: seq<T>, c: seq<T>, d: seq<T>)
    requires a + b == c + d && |a| == |c|
    ensures a == c && b == d
  {
    assert a == (a + b)[..|a|] && b == (a + b)[|a|..];
    assert c == (c + d)[..|c|] && d == (c + d)[|c|..];
  }

  lemma BytesToBitsAppend(s: seq<byte>, b: byte)
    ensures BytesToBits(s + [b]) == BytesToBits(s) + ByteBits(b)
  {
  }

  lemma {:induction false} BytesToBitsInjective(s: seq<byte>, t: seq<byte>)
    requires BytesToBits(s) == BytesToBits(t)
    ensures s == t
  {
    assert |s| == |t|;
    if s != [] {
      var n := |s| - 1;
      ConcatInjective(BytesToBits(s[..n]), ByteBits(s[n]), BytesToBits(t[..n]), ByteBits(t[n]));
      BytesToBitsInjective(s[..n], t[..n]);
      ByteBitsInjective(s[n], t[n]);
      assert s == s[..n] + [s[n]] && t == t[..n] + [t[n]];
    }
  }

  /** Bit k of byte i is bit 8*i + k of the string. */
  lemma {:induction false} BitAt(s: seq<byte>, i: nat, k: nat)
    requires i < |s| && k < 8
    ensures BytesToBits(s)[8 * i + k] == ByteBits(s[i])[k] == Shr(s[i], 7 - k) % 2
  {
    var n := |s| - 1;
    if i < n {
      BitAt(s[..n], i, k);
    } else {
      var w: nat := 8;
      ToBitsAt(s[n], w, k);
    }
  }

  // ----- Big-endian byte sequences -----

  /** The low n bytes of v, most significant first (`to_be_bytes`). */
  function ToBE(v: nat, n: nat): (s: seq<byte>)
    ensures |s| == n
    decreases n, v
  {
    if n == 0 then [] else ToBE(v / 256, n - 1) + [v % 256]
  }

  function FromBE(s: seq<byte>): (v: nat)
    ensures v < Pow2(8 * |s|)
  {
    if s == [] then 0 else
      assert Pow2(8 * |s|) == 256 * Pow2(8 * (|s| - 1)) by {
        Pow2ByteStep(|s| - 1);
      }
      256 * FromBE(s[..|s| - 1]) + s[|s| - 1]
  }

  lemma Pow2ByteStep(n: nat)
    ensures Pow2(8 * (n + 1)) == 256 * Pow2(8 * n)
  {
    ShlOne(8 * n);
    ShlOne(8 * (n + 1));
    ShlByte(1, n);
  }

  lemma ShlByte(x: nat, n: nat)
    ensures Shl(x, 8 * (n + 1)) == 256 * Shl(x, 8 * n)
  {
    var y := Shl(x, 8 * n);
    ShlAdd(x, 8 * n, 8);
    ShlMul(y, 8);
    Pow2Values();
  }

  lemma {:induction false} FromToBE(v: nat, n: nat)
    requires v < Pow2(8 * n)
    ensures FromBE(ToBE(v, n)) == v
    decreases n
  {
    if n > 0 {
      Pow2ByteStep(n - 1);
      FromToBE(v / 256, n - 1);
      assert ToBE(v, n)[..n - 1] == ToBE(v / 256, n - 1);
    }
  }

  lemma {:induction false} FromBEConcat(s: seq<byte>, t: seq<byte>)
    ensures FromBE(s + t) == Shl(FromBE(s), 8 * |t|) + FromBE(t)
  {
    if t == [] {
      assert s + t == s;
    } else {
      var n := |t| - 1;
      assert (s + t)[..|s + t| - 1] == s + t[..n];
      FromBEConcat(s, t[..n]);
      ShlByte(FromBE(s), n);
    }
  }

  // ----- Concatenation -----

  function Flatten<T>(ss: seq<seq<T>>): seq<T> {
    if ss == [] then [] else ss[0] + Flatten(ss[1..])
  }
}
