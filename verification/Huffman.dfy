/** The string coder of HPACK and QPACK (section 5.2 of RFC 7541): encoding packs variable-length
    codes into bytes and pads with ones, decoding walks a binary tree bit by bit.

    The reference notion is `IsEncoding`: the bits of the output are the concatenated codes followed by
    fewer than eight ones. The packing loop produces exactly that, and the decoder accepts exactly that.
 */
module Huffman {
  import opened Bits

  datatype Entry = Entry(len: nat, val: nat)

  /** Index of the end-of-string symbol, which no byte maps to. */
  const EOS := 256

  datatype Error = NeedMoreData | HuffmanDecompression
  datatype Res<+T> = Ok(value: T) | Err(error: Error)

  /** Code lengths are bounded and every value fits its length. */
  ghost predicate BoundedTable(t: seq<Entry>) {
    && |t| == EOS + 1
    && forall i :: 0 <= i < |t| ==> BoundedEntry(t[i])
  }

  predicate BoundedEntry(e: Entry) {
    1 <= e.len <= 30 && e.val < Pow2(e.len)
  }

  ghost predicate PrefixFree(t: seq<Entry>) {
    forall i, j :: 0 <= i < |t| && 0 <= j < |t| && i != j ==> !(Code(t[i]) <= Code(t[j]))
  }

  /** What the coder relies on: bounded codes, no code a prefix of another, and an end-of-string code of
      thirty ones. */
  ghost predicate ValidTable(t: seq<Entry>) {
    BoundedTable(t) && PrefixFree(t) && Code(t[EOS]) == Ones(30)
  }

  function Code(e: Entry): (c: seq<bit>)
    ensures |c| == e.len
  {
    ToBits(e.val, e.len)
  }

  /** The codes of a string, one after the other. */
  ghost function CodeBits(t: seq<Entry>, s: seq<byte>): seq<bit>
    requires |t| == EOS + 1
  {
    if s == [] then [] else CodeBits(t, s[..|s| - 1]) + Code(t[s[|s| - 1]])
  }

  /** How many bits are missing to the next byte boundary. */
  function Padding(n: nat): (p: nat)
    ensures p < 8 && (n + p) % 8 == 0
  {
    (8 - n % 8) % 8
  }

  lemma PaddingOf(whole: nat, partial: nat)
    requires partial < 8
    ensures Padding(8 * whole + partial) == (if partial == 0 then 0 else 8 - partial)
  {
  }

  lemma PaddingFits(n: nat, p: nat, bytes: nat)
    requires p < 8 && n + p == 8 * bytes
    ensures Padding(n) == p
  {
  }

  /** The wire format: codes, then ones up to the byte boundary. */
  ghost predicate IsEncoding(t: seq<Entry>, s: seq<byte>, wire: seq<byte>)
    requires |t| == EOS + 1
  {
    BytesToBits(wire) == CodeBits(t, s) + Ones(Padding(|CodeBits(t, s)|))
  }

  // ----- Encoding -----

  lemma CodeBitsAppend(t: seq<Entry>, s: seq<byte>, c: byte)
    requires |t| == EOS + 1
    ensures CodeBits(t, s + [c]) == CodeBits(t, s) + Code(t[c])
  {
  }

  /** The bits held back in `saved`: its top 8 - left bits. */
  ghost function SavedBits(saved: byte, left: nat): seq<bit>
    requires left <= 8
  {
    ToBits(Shr(saved, left), 8 - left)
  }

  /** Or-ing v into the free low bits of `saved` appends the bits of v. */
  lemma FillValue(saved: byte, left: nat, v: nat, n: nat)
    requires left <= 8 && n <= left && v < Pow2(n) && Low(saved, left) == 0
    ensures BitOr(saved, Shl(v, left - n)) == Shl(Shl(Shr(saved, left), n) + v, left - n)
  {
    var q, k := Shr(saved, left), left - n;
    HighLow(saved, left);
    ShlAdd(q, n, k);
    ShlSum(Shl(q, n), v, k);
    ShlBound(v, n, k);
    OrDisjoint(q, Shl(v, k), left);
  }

  lemma FillSaved(saved: byte, left: nat, v: nat, n: nat)
    requires left <= 8 && n <= left && v < Pow2(n) && Low(saved, left) == 0
    ensures var r := BitOr(saved, Shl(v, left - n));
            && r < 256
            && Low(r, left - n) == 0
            && ToBits(Shr(r, left - n), 8 - left + n) == SavedBits(saved, left) + ToBits(v, n)
  {
    var q, k := Shr(saved, left), left - n;
    FillValue(saved, left, v, n);
    var x := Shl(q, n) + v;
    ShlParts(x, 0, k);
    ToBitsJoin(q, v, 8 - left, n);
    FillBound(saved, left, v, n);
  }

  lemma FillBound(saved: byte, left: nat, v: nat, n: nat)
    requires left <= 8 && n <= left && v < Pow2(n)
    ensures Shl(Shl(Shr(saved, left), n) + v, left - n) < 256
  {
    var q, k := Shr(saved, left), left - n;
    var a := 8 - left;
    assert a + left == 8 && Pow2(8) == 256;
    ShrBound(saved, a, left);
    ShlBound(q, a, n);
    assert Shl(q, n) + v < Pow2(a + n);
    ShlBound(Shl(q, n) + v, a + n, k);
  }

  method Encode(t: seq<Entry>, input: seq<byte>) returns (output: seq<byte>)
    requires BoundedTable(t)
    ensures IsEncoding(t, input, output)
  {
    output := [];
    var left := 8;
    var saved: byte := 0;
    for k := 0 to |input|
      invariant Packed(output, left, saved, CodeBits(t, input[..k]))
    {
      output, left, saved := EncodeOne(t[input[k]], output, left, saved, CodeBits(t, input[..k]));
      assert input[..k + 1] == input[..k] + [input[k]];
      CodeBitsAppend(t, input[..k], input[k]);
    }
    assert input[..|input|] == input;
    if left < 8 {
      PadLast(output, left, saved, CodeBits(t, input));
      saved := BitOr(saved, Shl(1, left) - 1);
      output := output + [saved];
    } else {
      NoPadding(output, left, saved, CodeBits(t, input));
    }
  }

  /** The packing state between symbols: whole bytes, plus the top bits of `saved`. */
  ghost predicate Packed(output: seq<byte>, left: nat, saved: byte, bits: seq<bit>) {
    && 1 <= left <= 8
    && Low(saved, left) == 0
    && bits == BytesToBits(output) + SavedBits(saved, left)
  }

  lemma PadLast(output: seq<byte>, left: nat, saved: byte, bits: seq<bit>)
    requires Packed(output, left, saved, bits) && left < 8
    ensures Shl(1, left) >= 1
    ensures var last := BitOr(saved, Shl(1, left) - 1);
            && last < 256
            && BytesToBits(output + [last]) == bits + Ones(Padding(|bits|))
  {
    var v := MaskOnes(left);
    PadWith(output, left, saved, bits, v);
    assert Padding(|bits|) == left by {
      PaddingOf(|output|, 8 - left);
    }
  }

  lemma MaskOnes(left: nat) returns (v: nat)
    ensures Shl(1, left) == v + 1 && v < Pow2(left) && ToBits(v, left) == Ones(left)
  {
    ShlOne(left);
    ToBitsOnes(left);
    v := Shl(1, left) - 1;
  }

  lemma PadWith(output: seq<byte>, left: nat, saved: byte, bits: seq<bit>, v: nat)
    requires Packed(output, left, saved, bits) && v < Pow2(left) && ToBits(v, left) == Ones(left)
    ensures var last := BitOr(saved, v);
            last < 256 && BytesToBits(output + [last]) == bits + Ones(left) && |bits| == 8 * |output| + (8 - left)
  {
    FillSaved(saved, left, v, left);
    var last := BitOr(saved, v);
    BytesToBitsAppend(output, last);
    ConcatAssoc(BytesToBits(output), SavedBits(saved, left), Ones(left));
  }

  lemma NoPadding(output: seq<byte>, left: nat, saved: byte, bits: seq<bit>)
    requires Packed(output, left, saved, bits) && left == 8
    ensures BytesToBits(output) == bits + Ones(Padding(|bits|))
  {
  }

  /** One turn of the packing loop: append the code of one symbol to what has been packed so far. */
  method EncodeOne(e: Entry, before: seq<byte>, leftBefore: nat, savedBefore: byte, ghost bits: seq<bit>)
    returns (output: seq<byte>, left: nat, saved: byte)
    requires BoundedEntry(e)
    requires Packed(before, leftBefore, savedBefore, bits)
    ensures Packed(output, left, saved, bits + Code(e))
  {
    output, left, saved := before, leftBefore, savedBefore;
    var len := e.len;
    if len < left {
      // The code fits into the free bits of the current byte.
      ShortCode(e, output, left, saved, bits);
      var b := BitAnd(e.val, 0xFF);
      saved := BitOr(saved, Shl(b, left - len));
      left := left - len;
      return;
    }
    FillByte(e, output, left, saved, bits);
    var v := Shr(e.val, len - left);
    output := output + [BitOr(saved, v)];
    output, left, saved := EncodeRest(e.val, len - left, output, bits + Code(e));
  }

  /** The last n bits of the code, after the current byte has been filled. */
  method EncodeRest(val: nat, n: nat, before: seq<byte>, ghost bits: seq<bit>)
    returns (output: seq<byte>, left: nat, saved: byte)
    requires BytesToBits(before) + ToBits(val, n) == bits
    ensures Packed(output, left, saved, bits)
  {
    var len;
    output, len := WholeBytes(val, n, before, bits);
    left, saved := 8, 0;

    // The remaining bits go to the top of the next byte.
    if len > 0 {
      SavedRest(output, val, len, bits);
      saved := Shl(BitAnd(val, Shl(1, len) - 1), 8 - len);
      left := 8 - len;
    } else {
      assert BytesToBits(output) + [] == BytesToBits(output);
    }
  }

  /** As many bytes as the code fills. */
  method WholeBytes(val: nat, n: nat, before: seq<byte>, ghost bits: seq<bit>) returns (output: seq<byte>, len: nat)
    requires BytesToBits(before) + ToBits(val, n) == bits
    ensures len < 8 && BytesToBits(output) + ToBits(val, len) == bits
  {
    output, len := before, n;
    while len >= 8
      invariant 0 <= len <= n
      invariant BytesToBits(output) + ToBits(val, len) == bits
    {
      var w := BitAnd(Shr(val, len - 8), 0xFF);
      FullByte(val, len, output);
      output := output + [w];
      len := len - 8;
    }
  }

  lemma ShortCode(e: Entry, output: seq<byte>, left: nat, saved: byte, bits: seq<bit>)
    requires e.len < left <= 8 && e.val < Pow2(e.len)
    requires Packed(output, left, saved, bits)
    ensures var s := BitOr(saved, Shl(BitAnd(e.val, 0xFF), left - e.len));
            s < 256 && Packed(output, left - e.len, s, bits + Code(e))
  {
    assert BitAnd(e.val, 0xFF) == e.val by {
      Pow2Monotone(e.len, 8);
      AndMask(e.val, 8);
      LowSmall(e.val, 8);
    }
    FillSaved(saved, left, e.val, e.len);
    ConcatAssoc(BytesToBits(output), SavedBits(saved, left), Code(e));
  }

  lemma FillByte(e: Entry, output: seq<byte>, left: nat, saved: byte, bits: seq<bit>)
    requires e.val < Pow2(e.len) && left <= e.len
    requires Packed(output, left, saved, bits)
    ensures var b := BitOr(saved, Shr(e.val, e.len - left));
            && b < 256
            && BytesToBits(output + [b]) + ToBits(e.val, e.len - left) == bits + Code(e)
  {
    var rest := e.len - left;
    ShrBound(e.val, left, rest);
    var v := Shr(e.val, rest);
    FillSaved(saved, left, v, left);
    var b := BitOr(saved, v);
    BytesToBitsAppend(output, b);
    ToBitsSplit(e.val, left, rest);
    var whole, held := BytesToBits(output), SavedBits(saved, left);
    ConcatAssoc(whole, held, ToBits(v, left));
    ConcatAssoc(whole + held, ToBits(v, left), ToBits(e.val, rest));
  }

  lemma FullByte(v: nat, len: nat, output: seq<byte>)
    requires len >= 8
    ensures var w := BitAnd(Shr(v, len - 8), 0xFF);
            && w < 256
            && BytesToBits(output + [w]) + ToBits(v, len - 8) == BytesToBits(output) + ToBits(v, len)
  {
    var h := Shr(v, len - 8);
    AndMask(h, 8);
    ToBitsLow(h, 8);
    ToBitsSplit(v, 8, len - 8);
    BytesToBitsAppend(output, BitAnd(h, 0xFF));
    ConcatAssoc(BytesToBits(output), ToBits(h, 8), ToBits(v, len - 8));
  }

  lemma SavedRest(output: seq<byte>, v: nat, len: nat, bits: seq<bit>)
    requires 1 <= len < 8 && BytesToBits(output) + ToBits(v, len) == bits
    ensures Shl(1, len) >= 1
    ensures var s := Shl(BitAnd(v, Shl(1, len) - 1), 8 - len);
            s < 256 && Packed(output, 8 - len, s, bits)
  {
    RestIntoSaved(v, len);
  }

  lemma RestIntoSaved(v: nat, len: nat)
    requires 1 <= len < 8
    ensures Shl(1, len) >= 1
    ensures var s := Shl(BitAnd(v, Shl(1, len) - 1), 8 - len);
            && s < 256
            && Low(s, 8 - len) == 0
            && ToBits(Shr(s, 8 - len), len) == ToBits(v, len)
  {
    ShlOne(len);
    AndMask(v, len);
    ToBitsLow(v, len);
    var r, k := Low(v, len), 8 - len;
    assert Pow2(8) == 256;
    ShlBound(r, len, k);
    ShlParts(r, 0, k);
  }

  // ----- The decoding tree -----

  datatype Node = Node(zero: Option<Node>, one: Option<Node>, value: Option<nat>) {
    function Next(b: bit): Option<Node> {
      if b == 0 then zero else one
    }
  }

  ghost predicate IsLeaf(node: Node, t: seq<Entry>, path: seq<bit>) {
    node.value.Some? && node.value.value < |t| && Code(t[node.value.value]) == path
  }

  ghost predicate NoCodeIs(t: seq<Entry>, path: seq<bit>) {
    forall j :: 0 <= j < |t| ==> Code(t[j]) != path
  }

  ghost predicate NoCodeExtends(t: seq<Entry>, path: seq<bit>) {
    forall j :: 0 <= j < |t| ==> !(path <= Code(t[j]))
  }

  /** The subtree hangs at `path`: its leaves are the codes that extend the path, and a missing child
      means that no code goes that way. */
  ghost predicate Represents(node: Node, t: seq<Entry>, path: seq<bit>) {
    && node.value.None?
    && ChildRepresents(node.zero, t, path + [0])
    && ChildRepresents(node.one, t, path + [1])
  }

  ghost predicate ChildRepresents(child: Option<Node>, t: seq<Entry>, path: seq<bit>) {
    match child
    case None => NoCodeExtends(t, path)
    case Some(c) =>
      if c.value.Some? then IsLeaf(c, t, path)
      else NoCodeIs(t, path) && Represents(c, t, path)
  }

  /** Comparing shifted values is comparing prefixes. */
  lemma PrefixTest(e: Entry, prefix: nat, len: nat)
    requires len < e.len && e.val < Pow2(e.len) && prefix < Pow2(len)
    ensures Shr(e.val, e.len - len) == prefix <==> ToBits(prefix, len) <= Code(e)
  {
    var k := e.len - len;
    assert len + k == e.len;
    ToBitsSplit(e.val, len, k);
    ShrBound(e.val, len, k);
    assert Code(e)[..len] == ToBits(Shr(e.val, k), len);
    if ToBits(prefix, len) <= Code(e) {
      ToBitsInjective(Shr(e.val, k), prefix, len);
    }
  }

  lemma OneBitMore(e: Entry, path: seq<bit>)
    requires e.len == |path| + 1 && path <= Code(e)
    ensures Code(e) == path + [e.val % 2]
  {
  }

  lemma PathStep(prefix: nat, len: nat, b: bit)
    requires prefix < Pow2(len)
    ensures ToBits(2 * prefix + b, len + 1) == ToBits(prefix, len) + [b]
  {
  }

  /** What scanning the first i table entries has found out about one child of `path`. */
  ghost predicate Scanned(t: seq<Entry>, i: nat, child: Option<Node>, path: seq<bit>)
    requires i <= |t|
  {
    match child
    case None => forall j :: 0 <= j < i ==> Code(t[j]) != path
    case Some(c) => IsLeaf(c, t, path)
  }

  /** An entry that the scan passes over tells nothing new about the children of `path`. */
  lemma PassedOver(e: Entry, prefix: nat, len: nat)
    requires BoundedEntry(e) && prefix < Pow2(len)
    requires e.len <= len || Shr(e.val, e.len - len) != prefix
    ensures !(ToBits(prefix, len) < Code(e))
    ensures forall b: bit :: Code(e) != ToBits(prefix, len) + [b]
  {
    if len < e.len {
      PrefixTest(e, prefix, len);
    }
  }

  lemma ScanStep(t: seq<Entry>, i: nat, before: Option<Node>, child: Option<Node>, path: seq<bit>)
    requires i < |t| && Scanned(t, i, before, path)
    requires if Code(t[i]) == path then child.Some? && IsLeaf(child.value, t, path) else child == before
    ensures Scanned(t, i + 1, child, path)
  {
  }

  /** What one matching entry does to the two children. */
  method PlaceEntry(t: seq<Entry>, i: nat, zero: Option<Node>, one: Option<Node>, len: nat, ghost path: seq<bit>)
    returns (zero': Option<Node>, one': Option<Node>)
    requires i < |t| && len == |path| && path < Code(t[i])
    requires Scanned(t, i, zero, path + [0]) && Scanned(t, i, one, path + [1])
    ensures Scanned(t, i + 1, zero', path + [0]) && Scanned(t, i + 1, one', path + [1])
  {
    zero', one' := zero, one;
    var e := t[i];
    if e.len == len + 1 {
      OneBitMore(e, path);
      var leaf := Some(Node(None, None, Some(i)));
      if e.val % 2 == 0 {
        zero' := leaf;
        assert (path + [1])[|path|] == 1;
      } else {
        one' := leaf;
        assert (path + [0])[|path|] == 0;
      }
    }
    ScanStep(t, i, zero, zero', path + [0]);
    ScanStep(t, i, one, one', path + [1]);
  }

  /** After i entries: whether one of them extends the path, and the children that are leaves. */
  ghost predicate ScannedBoth(t: seq<Entry>, i: nat, found: bool, zero: Option<Node>, one: Option<Node>, path: seq<bit>)
    requires i <= |t|
  {
    && (found ==> |path| < 30)
    && (!found ==> forall j :: 0 <= j < i ==> !(path < Code(t[j])))
    && Scanned(t, i, zero, path + [0]) && Scanned(t, i, one, path + [1])
  }

  /** One entry: it does not extend the path, or it does and may be a child. */
  method ScanEntry(t: seq<Entry>, i: nat, found: bool, zero: Option<Node>, one: Option<Node>, prefix: nat, len: nat)
    returns (found': bool, zero': Option<Node>, one': Option<Node>)
    requires BoundedTable(t) && i < |t| && prefix < Pow2(len) && ScannedBoth(t, i, found, zero, one, ToBits(prefix, len))
    ensures ScannedBoth(t, i + 1, found', zero', one', ToBits(prefix, len))
  {
    ghost var path := ToBits(prefix, len);
    var e := t[i];
    assert BoundedEntry(e);
    if e.len <= len || Shr(e.val, e.len - len) != prefix {
      PassedOver(e, prefix, len);
      ScanStep(t, i, zero, zero, path + [0]);
      ScanStep(t, i, one, one, path + [1]);
      return found, zero, one;
    }
    PrefixTest(e, prefix, len);
    found' := true;
    zero', one' := PlaceEntry(t, i, zero, one, len, path);
  }

  method MakeTree(t: seq<Entry>, prefix: nat, len: nat) returns (node: Node)
    requires BoundedTable(t) && len <= 30 && prefix < Pow2(len)
    ensures Represents(node, t, ToBits(prefix, len))
    decreases 31 - len
  {
    var found := false;
    var zero: Option<Node>, one: Option<Node> := None, None;
    for i := 0 to |t|
      invariant ScannedBoth(t, i, found, zero, one, ToBits(prefix, len))
    {
      found, zero, one := ScanEntry(t, i, found, zero, one, prefix, len);
      if zero.Some? && one.Some? {
        return Node(zero, one, None);
      }
    }
    if found {
      if zero.None? {
        PathStep(prefix, len, 0);
        var child := MakeTree(t, 2 * prefix, len + 1);
        zero := Some(child);
      }
      if one.None? {
        PathStep(prefix, len, 1);
        var child := MakeTree(t, 2 * prefix + 1, len + 1);
        one := Some(child);
      }
    }
    node := Node(zero, one, None);
  }

  // ----- Reading bits -----

  class BitReader {
    const input: seq<byte>
    var offset: nat
    var currentBit: nat

    ghost predicate Valid()
      reads this
    {
      || (input == [] && offset == 0 && currentBit <= 8)
      || (offset < |input| && currentBit <= 8)
      || (input != [] && offset == |input| && currentBit == 0)
    }

    ghost function Consumed(): (n: nat)
      requires Valid()
      reads this
      ensures n <= 8 * |input|
    {
      if offset == |input| then 8 * |input| else 8 * offset + (8 - currentBit)
    }

    /** The bits not read yet. */
    ghost function Rest(): (r: seq<bit>)
      requires Valid()
      reads this
    {
      BytesToBits(input)[Consumed()..]
    }

    /** The reader has noticed the end of a non-empty input. */
    ghost predicate AtEnd()
      reads this
    {
      input != [] && offset == |input| && currentBit == 0
    }

    constructor (data: seq<byte>)
      ensures Valid() && input == data && Rest() == BytesToBits(data) && offset == 0 && currentBit == 8
    {
      input, offset, currentBit := data, 0, 8;
    }

    method ReadBit() returns (r: Res<bit>)
      requires Valid()
      modifies this
      ensures Valid()
      ensures old(Rest()) == [] ==> r == Err(NeedMoreData) && Rest() == [] && (input != [] ==> AtEnd())
      ensures old(Rest()) != [] ==> r == Ok(old(Rest())[0]) && Rest() == old(Rest())[1..] && offset < |input|
    {
      if offset == |input| {
        return Err(NeedMoreData);
      }
      if currentBit == 0 {
        offset := offset + 1;
        if offset == |input| {
          return Err(NeedMoreData);
        }
        currentBit := 8;
      }
      currentBit := currentBit - 1;
      BitAt(input, offset, 7 - currentBit);
      r := Ok(Shr(input[offset], currentBit) % 2);
    }

    /** Accept the end of the input if the last i bits, fewer than eight, are ones. */
    method VerifyEnding(i: nat) returns (r: Res<()>)
      requires Valid()
      modifies this
      ensures Valid() && offset == old(offset)
      ensures r.Err? ==> r.error == HuffmanDecompression
      ensures input == [] ==> (r.Ok? <==> i + currentBit <= 7)
      ensures input != [] ==>
                (r.Ok? <==> old(AtEnd()) && i <= 7 && BytesToBits(input)[8 * |input| - i..] == Ones(i))
      ensures input != [] && r.Ok? ==> AtEnd()
    {
      if i + currentBit > 7 {
        return Err(HuffmanDecompression);
      }
      if input == [] {
        return Ok(());
      }
      if offset != |input| {
        return Err(HuffmanDecompression);
      }
      ShlOne(i);
      EndingOnes(input, i);
      var mask := Shl(1, i) - 1;
      if BitAnd(input[|input| - 1], mask) == mask {
        currentBit := 0;
        return Ok(());
      }
      return Err(HuffmanDecompression);
    }

    method HasMoreData() returns (more: bool)
      requires Valid()
      ensures !more ==> Rest() == []
      ensures more <==> input != [] && !AtEnd()
    {
      more := input != [] && (offset != |input| || currentBit != 0);
    }
  }

  lemma LastBits(input: seq<byte>, i: nat)
    requires input != [] && i <= 7
    ensures BytesToBits(input)[8 * |input| - i..] == ToBits(input[|input| - 1], i)
  {
    var last := input[|input| - 1];
    ToBitsSplit(last, 8 - i, i);
    assert ByteBits(last)[8 - i..] == ToBits(last, i);
  }

  /** The mask test of the reader looks at the last i bits of the input. */
  lemma EndingOnes(input: seq<byte>, i: nat)
    requires input != [] && i <= 7
    ensures var mask := Pow2(i) - 1;
            BitAnd(input[|input| - 1], mask) == mask <==> BytesToBits(input)[8 * |input| - i..] == Ones(i)
  {
    var last := input[|input| - 1];
    LastBits(input, i);
    AndMask(last, i);
    LowAllOnes(last, i);
  }

  // ----- Decoding -----

  /** Fewer than eight ones: what may follow the last code. */
  ghost predicate IsPadding(rest: seq<bit>) {
    |rest| <= 7 && rest == Ones(|rest|)
  }

  /** No code starts the remaining bits. */
  ghost predicate NoCodeStarts(t: seq<Entry>, rest: seq<bit>) {
    forall j :: 0 <= j < |t| ==> !(Code(t[j]) <= rest)
  }

  /** The walk is at a leaf, or at an inner node before the end of any code. */
  ghost predicate Descending(t: seq<Entry>, node: Node, path: seq<bit>) {
    if node.value.Some? then IsLeaf(node, t, path)
    else Represents(node, t, path) && NoCodeStarts(t, path)
  }

  lemma PrefixOrder<T>(a: seq<T>, b: seq<T>, c: seq<T>)
    requires a <= c && b <= c
    ensures |a| <= |b| ==> a <= b
    ensures |b| <= |a| ==> b <= a
  {
  }

  lemma StillNoCode(t: seq<Entry>, path: seq<bit>, b: bit)
    requires NoCodeStarts(t, path) && NoCodeIs(t, path + [b])
    ensures NoCodeStarts(t, path + [b])
  {
  }

  lemma Descend(t: seq<Entry>, node: Node, path: seq<bit>, b: bit)
    requires node.value.None? && Descending(t, node, path)
    ensures match node.Next(b)
            case None => NoCodeExtends(t, path + [b])
            case Some(c) => Descending(t, c, path + [b])
  {
    var next := node.Next(b);
    assert ChildRepresents(next, t, path + [b]);
    if next.Some? && next.value.value.None? {
      StillNoCode(t, path, b);
    }
  }

  /** A missing child: whatever follows, no code starts here and this is not the padding. */
  lemma DeadEnd(t: seq<Entry>, path: seq<bit>, b: bit, more: seq<bit>)
    requires |t| == EOS + 1 && Code(t[EOS]) == Ones(30)
    requires NoCodeStarts(t, path) && NoCodeExtends(t, path + [b])
    ensures NoCodeStarts(t, path + [b] + more) && !IsPadding(path + [b] + more)
  {
    var rest := path + [b] + more;
    forall j | 0 <= j < |t|
      ensures !(Code(t[j]) <= rest)
    {
      if Code(t[j]) <= rest {
        assert path <= path + [b];
        PrefixOrder(Code(t[j]), path, rest);
        PrefixOrder(Code(t[j]), path + [b], rest);
      }
    }
    assert !(path + [b] <= Code(t[EOS]));
    PaddingPrefix(path + [b], rest);
  }

  lemma PaddingPrefix(p: seq<bit>, rest: seq<bit>)
    requires p <= rest
    ensures IsPadding(rest) ==> p < Ones(30)
  {
  }

  /** One descent through the tree: the symbol whose code comes next, or the end of the string. */
  method DecodeCharacter(t: seq<Entry>, root: Node, reader: BitReader) returns (r: Res<Option<nat>>)
    requires |t| == EOS + 1 && Code(t[EOS]) == Ones(30)
    requires root.value.None? && Descending(t, root, [])
    requires reader.Valid() && reader.input != [] && !reader.AtEnd()
    modifies reader
    ensures reader.Valid()
    ensures r.Err? ==>
              && r.error == HuffmanDecompression
              && !IsPadding(old(reader.Rest()))
              && NoCodeStarts(t, old(reader.Rest()))
    ensures r.Ok? && r.value.None? ==>
              IsPadding(old(reader.Rest())) && reader.AtEnd() && reader.Rest() == []
    ensures r.Ok? && r.value.Some? ==>
              && r.value.value < |t|
              && old(reader.Rest()) == Code(t[r.value.value]) + reader.Rest()
              && !reader.AtEnd()
  {
    var node := root;
    var i: nat := 0;
    ghost var rest := reader.Rest();
    ghost var path: seq<bit> := [];
    assert IsTail(rest, reader.input);
    while node.value.None?
      invariant reader.Valid() && !reader.AtEnd()
      invariant rest == path + reader.Rest() && i == |path|
      invariant Descending(t, node, path)
      decreases |reader.Rest()|
    {
      var next;
      next, r, path := DescendOne(t, node, reader, i, path, rest);
      if next.None? {
        return;
      }
      node := next.value;
      i := i + 1;
    }
    r := Ok(Some(node.value.value));
  }

  /** The last bits of the input. */
  ghost predicate IsTail(bits: seq<bit>, input: seq<byte>) {
    |bits| <= 8 * |input| && bits == BytesToBits(input)[8 * |input| - |bits|..]
  }

  /** One bit further down, or the end: of the input, or of the tree. */
  method DescendOne(t: seq<Entry>, node: Node, reader: BitReader, i: nat, ghost path: seq<bit>, ghost rest: seq<bit>)
    returns (next: Option<Node>, r: Res<Option<nat>>, ghost path': seq<bit>)
    requires |t| == EOS + 1 && Code(t[EOS]) == Ones(30)
    requires node.value.None? && Descending(t, node, path)
    requires reader.Valid() && reader.input != [] && !reader.AtEnd() && rest == path + reader.Rest() && i == |path|
    requires IsTail(rest, reader.input)
    modifies reader
    ensures reader.Valid()
    ensures next.Some? ==>
              && !reader.AtEnd() && rest == path' + reader.Rest() && |path'| == i + 1
              && Descending(t, next.value, path')
    ensures next.None? && r.Err? ==> r.error == HuffmanDecompression && !IsPadding(rest) && NoCodeStarts(t, rest)
    ensures next.None? && r.Ok? ==> r.value.None? && IsPadding(rest) && reader.AtEnd() && reader.Rest() == []
  {
    ghost var before := reader.Rest();
    var b := reader.ReadBit();
    path', next := path, None;
    if b.Err? {
      assert path == rest;
      var ending := reader.VerifyEnding(i);
      r := if ending.Err? then Err(ending.error) else Ok(None);
      return;
    }
    assert before == [b.value] + reader.Rest();
    Descend(t, node, path, b.value);
    ConcatAssoc(path, [b.value], reader.Rest());
    path' := path + [b.value];
    next := node.Next(b.value);
    r := Ok(None);
    if next.None? {
      DeadEnd(t, path, b.value, reader.Rest());
      var ending := reader.VerifyEnding(i + 1);  // an error, since this bit came from the input
      r := Err(ending.error);
    }
  }

  lemma {:induction false} CodeBitsConcat(t: seq<Entry>, a: seq<byte>, b: seq<byte>)
    requires |t| == EOS + 1
    ensures CodeBits(t, a + b) == CodeBits(t, a) + CodeBits(t, b)
  {
    if b == [] {
      assert a + b == a;
    } else {
      var front, last := b[..|b| - 1], b[|b| - 1];
      assert b == front + [last] && a + b == (a + front) + [last];
      CodeBitsConcat(t, a, front);
      CodeBitsAppend(t, a + front, last);
      CodeBitsAppend(t, front, last);
      ConcatAssoc(CodeBits(t, a), CodeBits(t, front), Code(t[last]));
    }
  }

  lemma CodeBitsOne(t: seq<Entry>, c: byte)
    requires |t| == EOS + 1
    ensures CodeBits(t, [c]) == Code(t[c])
  {
  }

  lemma CodeBitsFirst(t: seq<Entry>, s: seq<byte>)
    requires |t| == EOS + 1 && s != []
    ensures CodeBits(t, s) == Code(t[s[0]]) + CodeBits(t, s[1..])
  {
    var first, others := [s[0]], s[1..];
    CodeBitsOne(t, s[0]);
    CodeBitsConcat(t, first, others);
    assert s == first + others;
  }

  /** Two codes at the same place of the bit string are the same code. */
  lemma SameCode(t: seq<Entry>, i: nat, j: nat, rest: seq<bit>)
    requires PrefixFree(t) && i < |t| && j < |t| && Code(t[i]) <= rest && Code(t[j]) <= rest
    ensures i == j
  {
  }

  /** The padding is too short to be, or to start with, a code. */
  lemma PaddingStartsNoCode(t: seq<Entry>, rest: seq<bit>)
    requires ValidTable(t) && IsPadding(rest)
    ensures NoCodeStarts(t, rest)
  {
  }

  /** If the input encodes output + more, the bits after the codes of `output` are the codes of `more`
      and the padding. */
  lemma RestOf(t: seq<Entry>, output: seq<byte>, more: seq<byte>, input: seq<byte>, rest: seq<bit>)
    returns (p: nat)
    requires |t| == EOS + 1 && IsEncoding(t, output + more, input)
    requires BytesToBits(input) == CodeBits(t, output) + rest
    ensures p < 8 && rest == CodeBits(t, more) + Ones(p)
  {
    p := Padding(|CodeBits(t, output + more)|);
    CodeBitsConcat(t, output, more);
    ConcatAssoc(CodeBits(t, output), CodeBits(t, more), Ones(p));
    ConcatInjective(CodeBits(t, output), rest, CodeBits(t, output), CodeBits(t, more) + Ones(p));
  }

  /** The next code, or the padding, comes next. */
  lemma NextOf(t: seq<Entry>, output: seq<byte>, more: seq<byte>, input: seq<byte>, rest: seq<bit>)
    requires |t| == EOS + 1 && IsEncoding(t, output + more, input)
    requires BytesToBits(input) == CodeBits(t, output) + rest
    ensures if more == [] then IsPadding(rest) else Code(t[more[0]]) <= rest
  {
    var p := RestOf(t, output, more, input, rest);
    NextBits(t, more, p);
  }

  lemma NextBits(t: seq<Entry>, more: seq<byte>, p: nat)
    requires |t| == EOS + 1 && p < 8
    ensures var rest := CodeBits(t, more) + Ones(p);
            if more == [] then IsPadding(rest) else Code(t[more[0]]) <= rest
  {
    if more == [] {
      assert CodeBits(t, more) + Ones(p) == Ones(p);
    } else {
      CodeBitsFirst(t, more);
      ConcatAssoc(Code(t[more[0]]), CodeBits(t, more[1..]), Ones(p));
    }
  }

  /** The decoder's progress: the codes of `output` have been read, and no other string can be meant. */
  ghost predicate Progress(t: seq<Entry>, input: seq<byte>, output: seq<byte>, rest: seq<bit>)
    requires |t| == EOS + 1
  {
    && BytesToBits(input) == CodeBits(t, output) + rest
    && forall s :: IsEncoding(t, s, input) ==> output <= s
  }

  lemma CommittedTo(t: seq<Entry>, input: seq<byte>, output: seq<byte>, rest: seq<bit>, i: nat, s: seq<byte>)
    requires ValidTable(t) && BytesToBits(input) == CodeBits(t, output) + rest
    requires IsEncoding(t, s, input) && output <= s && i < |t| && Code(t[i]) <= rest
    ensures i < EOS && output + [i] <= s
  {
    var more := s[|output|..];
    assert s == output + more;
    NextOf(t, output, more, input, rest);
    if more == [] {
      PaddingStartsNoCode(t, rest);
    } else {
      SameCode(t, i, more[0], rest);
    }
  }

  lemma Committed(t: seq<Entry>, input: seq<byte>, output: seq<byte>, rest: seq<bit>, i: nat, rest': seq<bit>)
    requires ValidTable(t) && Progress(t, input, output, rest)
    requires i < |t| && rest == Code(t[i]) + rest'
    ensures i < EOS ==> Progress(t, input, output + [i], rest')
    ensures i == EOS ==> forall s :: !IsEncoding(t, s, input)
  {
    forall s: seq<byte> | IsEncoding(t, s, input)
      ensures i < EOS && output + [i] <= s
    {
      CommittedTo(t, input, output, rest, i, s);
    }
    if i < EOS {
      CodeBitsAppend(t, output, i);
      ConcatAssoc(CodeBits(t, output), Code(t[i]), rest');
    }
  }

  lemma Ends(t: seq<Entry>, input: seq<byte>, output: seq<byte>, rest: seq<bit>)
    requires ValidTable(t) && Progress(t, input, output, rest) && IsPadding(rest)
    ensures Decodes(t, input, Ok(output))
  {
    PaddingFits(|CodeBits(t, output)|, |rest|, |input|);
    PaddingStartsNoCode(t, rest);
    forall s: seq<byte> | IsEncoding(t, s, input)
      ensures s == output
    {
      var more := s[|output|..];
      assert s == output + more;
      NextOf(t, output, more, input, rest);
    }
  }

  lemma Stuck(t: seq<Entry>, input: seq<byte>, output: seq<byte>, rest: seq<bit>)
    requires |t| == EOS + 1 && Progress(t, input, output, rest)
    requires NoCodeStarts(t, rest) && !IsPadding(rest)
    ensures forall s :: !IsEncoding(t, s, input)
  {
    forall s: seq<byte>
      ensures !IsEncoding(t, s, input)
    {
      if IsEncoding(t, s, input) {
        var more := s[|output|..];
        assert s == output + more;
        NextOf(t, output, more, input, rest);
      }
    }
  }

  /** The one string that has this encoding, or an error if there is none. */
  ghost predicate Decodes(t: seq<Entry>, input: seq<byte>, r: Res<seq<byte>>)
    requires |t| == EOS + 1
  {
    forall s :: IsEncoding(t, s, input) <==> r == Ok(s)
  }

  lemma RootDescends(t: seq<Entry>, root: Node)
    requires BoundedTable(t) && Represents(root, t, [])
    ensures Descending(t, root, [])
  {
  }

  /** Between two symbols: the rest of the input is what the reader has, or padding if it has noticed the end. */
  ghost predicate Between(t: seq<Entry>, reader: BitReader, output: seq<byte>, rest: seq<bit>, more: bool)
    requires |t| == EOS + 1
    reads reader
  {
    && reader.Valid() && Progress(t, reader.input, output, rest)
    && (more <==> reader.input != [] && !reader.AtEnd())
    && (if more then rest == reader.Rest() else IsPadding(rest))
  }

  /** The decoder accepts exactly the encoder's outputs, and returns the string that was encoded. */
  method Decode(t: seq<Entry>, root: Node, input: seq<byte>) returns (r: Res<seq<byte>>)
    requires ValidTable(t) && Represents(root, t, [])
    ensures Decodes(t, input, r)
    ensures r.Err? ==> r.error == HuffmanDecompression
  {
    var reader := new BitReader(input);
    RootDescends(t, root);
    r := DecodeAll(t, root, reader);
  }

  method DecodeAll(t: seq<Entry>, root: Node, reader: BitReader) returns (r: Res<seq<byte>>)
    requires ValidTable(t) && root.value.None? && Descending(t, root, [])
    requires reader.Valid() && reader.Rest() == BytesToBits(reader.input) && (reader.AtEnd() ==> reader.input == [])
    modifies reader
    ensures Decodes(t, reader.input, r)
    ensures r.Err? ==> r.error == HuffmanDecompression
  {
    r := Ok([]);
    ghost var rest := reader.Rest();
    var more := reader.HasMoreData();
    StartProgress(t, reader.input);
    while more
      invariant r.Ok? && Between(t, reader, r.value, rest, more)
      decreases |reader.Rest()|, more
    {
      r, more, rest := DecodeMore(t, root, reader, r.value);
      if r.Err? {
        return;
      }
    }
    Ends(t, reader.input, r.value, rest);
  }

  lemma StartProgress(t: seq<Entry>, input: seq<byte>)
    requires |t| == EOS + 1
    ensures Progress(t, input, [], BytesToBits(input)) && IsPadding([])
  {
    assert CodeBits(t, []) + BytesToBits(input) == BytesToBits(input);
  }

  method DecodeMore(t: seq<Entry>, root: Node, reader: BitReader, output: seq<byte>)
    returns (r: Res<seq<byte>>, more: bool, ghost rest: seq<bit>)
    requires ValidTable(t) && root.value.None? && Descending(t, root, [])
    requires reader.Valid() && Between(t, reader, output, reader.Rest(), true)
    modifies reader
    ensures r.Err? ==> r.error == HuffmanDecompression && Decodes(t, reader.input, Err(r.error))
    ensures r.Ok? ==> Between(t, reader, r.value, rest, more)
    ensures r.Ok? ==>
              && reader.Valid()
              && (|reader.Rest()| < |old(reader.Rest())| || (!more && |reader.Rest()| <= |old(reader.Rest())|))
  {
    rest := reader.Rest();
    var c := DecodeNext(t, root, reader, output);
    more := reader.HasMoreData();
    if c.Err? {
      return Err(c.error), more, rest;
    }
    if c.value.None? {
      return Ok(output), more, rest;
    }
    return Ok(output + [c.value.value]), more, reader.Rest();
  }

  /** One turn of the loop: the next symbol, the end, or the certainty that nothing encodes to the input. */
  method DecodeNext(t: seq<Entry>, root: Node, reader: BitReader, ghost output: seq<byte>) returns (r: Res<Option<byte>>)
    requires ValidTable(t) && root.value.None? && Descending(t, root, [])
    requires reader.Valid() && reader.input != [] && !reader.AtEnd()
    requires Progress(t, reader.input, output, reader.Rest())
    modifies reader
    ensures reader.Valid()
    ensures r.Err? ==> r.error == HuffmanDecompression && Decodes(t, reader.input, Err(r.error))
    ensures r.Ok? && r.value.None? ==> IsPadding(old(reader.Rest())) && reader.AtEnd() && reader.Rest() == []
    ensures r.Ok? && r.value.Some? ==>
              && !reader.AtEnd() && |reader.Rest()| < |old(reader.Rest())|
              && Progress(t, reader.input, output + [r.value.value], reader.Rest())
  {
    ghost var rest := reader.Rest();
    var c := DecodeCharacter(t, root, reader);
    if c.Err? {
      Stuck(t, reader.input, output, rest);
      return Err(c.error);
    }
    if c.value.None? {
      return Ok(None);
    }
    assert BoundedEntry(t[c.value.value]);
    Committed(t, reader.input, output, rest, c.value.value, reader.Rest());
    if c.value.value >= 256 {
      return Err(HuffmanDecompression);
    }
    r := Ok(Some(c.value.value));
  }

  /** Encoding is a function and is injective: together with `Encode` and `Decode`, decoding an encoded
      string returns it, and re-encoding a decoded string returns the same bytes. */
  lemma EncodingUnique(t: seq<Entry>, s: seq<byte>, s': seq<byte>, wire: seq<byte>, wire': seq<byte>)
    requires ValidTable(t) && IsEncoding(t, s, wire) && IsEncoding(t, s', wire')
    ensures s == s' <==> wire == wire'
  {
    if s == s' {
      BytesToBitsInjective(wire, wire');
    }
    if wire == wire' {
      assert [] + s == s && [] + s' == s';
      SameTail(t, [], s, s', wire);
    }
  }

  /** Decoding what was encoded returns the string. */
  method DecodeEncoded(t: seq<Entry>, s: seq<byte>) returns (r: Res<seq<byte>>)
    requires ValidTable(t)
    ensures r == Ok(s)
  {
    var wire := Encode(t, s);
    assert ToBits(0, 0) == [];
    var root := MakeTree(t, 0, 0);
    r := Decode(t, root, wire);
  }

  /** Encoding what was decoded returns the bytes: there is no other encoding of a string. */
  method EncodeDecoded(t: seq<Entry>, wire: seq<byte>) returns (r: Res<seq<byte>>, again: seq<byte>)
    requires ValidTable(t)
    ensures r.Ok? ==> again == wire
  {
    assert ToBits(0, 0) == [];
    var root := MakeTree(t, 0, 0);
    r := Decode(t, root, wire);
    again := [];
    if r.Ok? {
      again := Encode(t, r.value);
      EncodingUnique(t, r.value, r.value, wire, again);
    }
  }

  lemma MoveFirst<T>(s: seq<T>, t: seq<T>)
    requires t != []
    ensures s + t == s + [t[0]] + t[1..] && t == [t[0]] + t[1..]
  {
  }

  lemma {:induction false} SameTail(t: seq<Entry>, common: seq<byte>, a: seq<byte>, b: seq<byte>, wire: seq<byte>)
    requires ValidTable(t) && IsEncoding(t, common + a, wire) && IsEncoding(t, common + b, wire)
    ensures a == b
    decreases |a|
  {
    SameNext(t, common, a, b, wire);
    SameNext(t, common, b, a, wire);
    if a != [] {
      MoveFirst(common, a);
      MoveFirst(common, b);
      SameTail(t, common + [a[0]], a[1..], b[1..], wire);
    }
  }

  /** Two strings with the same encoding and a common start continue with the same symbol. */
  lemma SameNext(t: seq<Entry>, common: seq<byte>, a: seq<byte>, b: seq<byte>, wire: seq<byte>)
    requires ValidTable(t) && IsEncoding(t, common + a, wire) && IsEncoding(t, common + b, wire)
    ensures a != [] ==> b != [] && a[0] == b[0]
  {
    var rest := AfterCommon(t, common, a, wire);
    NextOf(t, common, a, wire, rest);
    NextOf(t, common, b, wire, rest);
    if a != [] {
      if b == [] {
        PaddingStartsNoCode(t, rest);
      } else {
        SameCode(t, a[0], b[0], rest);
      }
    }
  }

  lemma AfterCommon(t: seq<Entry>, common: seq<byte>, a: seq<byte>, wire: seq<byte>) returns (rest: seq<bit>)
    requires |t| == EOS + 1 && IsEncoding(t, common + a, wire)
    ensures BytesToBits(wire) == CodeBits(t, common) + rest
  {
    var pad := Ones(Padding(|CodeBits(t, common + a)|));
    rest := CodeBits(t, a) + pad;
    CodeBitsConcat(t, common, a);
    ConcatAssoc(CodeBits(t, common), CodeBits(t, a), pad);
  }
}
