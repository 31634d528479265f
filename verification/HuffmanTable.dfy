/** The Huffman code of appendix B of RFC 7541. It is canonical: in increasing order, the codes of one length are
    consecutive numbers, and each code begins where the one before it ends. So it is enough to say how many codes
    there are of each length, and which place each symbol has.
 */
module HuffmanTables {
  import opened Bits
  import opened Huffman

  /** The codes, in increasing order. */
  function CodeAt(k: nat): Entry {
    if k < 10 then Entry(5, k)
    else if k < 36 then Entry(6, 0x14 + (k - 10))
    else if k < 68 then Entry(7, 0x5c + (k - 36))
    else if k < 74 then Entry(8, 0xf8 + (k - 68))
    else if k < 79 then Entry(10, 0x3f8 + (k - 74))
    else if k < 82 then Entry(11, 0x7fa + (k - 79))
    else if k < 84 then Entry(12, 0xffa + (k - 82))
    else if k < 90 then Entry(13, 0x1ff8 + (k - 84))
    else if k < 92 then Entry(14, 0x3ffc + (k - 90))
    else if k < 95 then Entry(15, 0x7ffc + (k - 92))
    else if k < 98 then Entry(19, 0x7fff0 + (k - 95))
    else if k < 106 then Entry(20, 0xfffe6 + (k - 98))
    else if k < 119 then Entry(21, 0x1fffdc + (k - 106))
    else if k < 145 then Entry(22, 0x3fffd2 + (k - 119))
    else if k < 174 then Entry(23, 0x7fffd8 + (k - 145))
    else if k < 186 then Entry(24, 0xffffea + (k - 174))
    else if k < 190 then Entry(25, 0x1ffffec + (k - 186))
    else if k < 205 then Entry(26, 0x3ffffe0 + (k - 190))
    else if k < 224 then Entry(27, 0x7ffffde + (k - 205))
    else if k < 253 then Entry(28, 0xfffffe2 + (k - 224))
    else Entry(30, 0x3ffffffc + (k - 253))
  }

  /** The place of each symbol among the codes, sixteen symbols in a row. */
  function PlaceRow(r: nat): (row: seq<nat>)
    requires r <= 16
    ensures |row| == if r < 16 then 16 else 1
  {
    if r == 0 then [84, 145, 224, 225, 226, 227, 228, 229, 230, 174, 253, 231, 232, 254, 233, 234]
    else if r == 1 then [235, 236, 237, 238, 239, 240, 255, 241, 242, 243, 244, 245, 246, 247, 248, 249]
    else if r == 2 then [10, 74, 75, 82, 85, 11, 68, 79, 76, 77, 69, 80, 70, 12, 13, 14]
    else if r == 3 then [0, 1, 2, 15, 16, 17, 18, 19, 20, 21, 36, 71, 92, 22, 83, 78]
    else if r == 4 then [86, 23, 37, 38, 39, 40, 41, 42, 43, 44, 45, 46, 47, 48, 49, 50]
    else if r == 5 then [51, 52, 53, 54, 55, 56, 57, 58, 72, 59, 73, 87, 95, 88, 90, 24]
    else if r == 6 then [93, 3, 25, 4, 26, 5, 27, 28, 29, 6, 60, 61, 30, 31, 32, 7]
    else if r == 7 then [33, 62, 34, 8, 9, 35, 63, 64, 65, 66, 67, 94, 81, 91, 89, 250]
    else if r == 8 then [98, 119, 99, 100, 120, 121, 122, 146, 123, 147, 148, 149, 150, 151, 175, 152]
    else if r == 9 then [176, 177, 124, 153, 178, 154, 155, 156, 157, 106, 125, 158, 126, 159, 160, 179]
    else if r == 10 then [127, 107, 101, 128, 129, 161, 162, 108, 163, 130, 131, 180, 109, 132, 164, 165]
    else if r == 11 then [110, 111, 133, 112, 166, 134, 167, 168, 102, 135, 136, 137, 169, 138, 139, 170]
    else if r == 12 then [190, 191, 103, 96, 140, 171, 141, 186, 192, 193, 194, 205, 206, 195, 181, 187]
    else if r == 13 then [97, 113, 196, 207, 208, 197, 209, 182, 114, 115, 198, 199, 251, 210, 211, 212]
    else if r == 14 then [104, 183, 105, 116, 142, 117, 118, 172, 143, 144, 188, 189, 184, 185, 200, 173]
    else if r == 15 then [201, 213, 202, 203, 214, 215, 216, 217, 218, 252, 219, 220, 221, 222, 223, 204]
    else [256]
  }

  /** And the symbol at each place. */
  function SymbolRow(r: nat): (row: seq<nat>)
    requires r <= 16
    ensures |row| == if r < 16 then 16 else 1
  {
    if r == 0 then [48, 49, 50, 97, 99, 101, 105, 111, 115, 116, 32, 37, 45, 46, 47, 51]
    else if r == 1 then [52, 53, 54, 55, 56, 57, 61, 65, 95, 98, 100, 102, 103, 104, 108, 109]
    else if r == 2 then [110, 112, 114, 117, 58, 66, 67, 68, 69, 70, 71, 72, 73, 74, 75, 76]
    else if r == 3 then [77, 78, 79, 80, 81, 82, 83, 84, 85, 86, 87, 89, 106, 107, 113, 118]
    else if r == 4 then [119, 120, 121, 122, 38, 42, 44, 59, 88, 90, 33, 34, 40, 41, 63, 39]
    else if r == 5 then [43, 124, 35, 62, 0, 36, 64, 91, 93, 126, 94, 125, 60, 96, 123, 92]
    else if r == 6 then [195, 208, 128, 130, 131, 162, 184, 194, 224, 226, 153, 161, 167, 172, 176, 177]
    else if r == 7 then [179, 209, 216, 217, 227, 229, 230, 129, 132, 133, 134, 136, 146, 154, 156, 160]
    else if r == 8 then [163, 164, 169, 170, 173, 178, 181, 185, 186, 187, 189, 190, 196, 198, 228, 232]
    else if r == 9 then [233, 1, 135, 137, 138, 139, 140, 141, 143, 147, 149, 150, 151, 152, 155, 157]
    else if r == 10 then [158, 165, 166, 168, 174, 175, 180, 182, 183, 188, 191, 197, 231, 239, 9, 142]
    else if r == 11 then [144, 145, 148, 159, 171, 206, 215, 225, 236, 237, 199, 207, 234, 235, 192, 193]
    else if r == 12 then [200, 201, 202, 205, 210, 213, 218, 219, 238, 240, 242, 243, 255, 203, 204, 211]
    else if r == 13 then [212, 214, 221, 222, 223, 241, 244, 245, 246, 247, 248, 250, 251, 252, 253, 254]
    else if r == 14 then [2, 3, 4, 5, 6, 7, 8, 11, 12, 14, 15, 16, 17, 18, 19, 20]
    else if r == 15 then [21, 23, 24, 25, 26, 27, 28, 29, 30, 31, 127, 220, 249, 10, 13, 22]
    else [256]
  }

  function Place(s: nat): nat
    requires s <= EOS
  {
    PlaceRow(s / 16)[s % 16]
  }

  function SymbolAt(k: nat): nat
    requires k <= EOS
  {
    SymbolRow(k / 16)[k % 16]
  }

  /** The table, by symbol. */
  function Table(): (t: seq<Entry>)
    ensures |t| == EOS + 1
  {
    seq(EOS + 1, s requires 0 <= s <= EOS => CodeAt(Place(s)))
  }

  // ----- Each symbol has a place of its own -----

  predicate Inverse(s: nat) {
    s <= EOS && Place(s) <= EOS && SymbolAt(Place(s)) == s
  }

  lemma From0()
    ensures forall s :: 0 <= s < 8 ==> Inverse(s)
  {
  }

  lemma From8()
    ensures forall s :: 8 <= s < 16 ==> Inverse(s)
  {
  }

  lemma From16()
    ensures forall s :: 16 <= s < 24 ==> Inverse(s)
  {
  }

  lemma From24()
    ensures forall s :: 24 <= s < 32 ==> Inverse(s)
  {
  }

  lemma From32()
    ensures forall s :: 32 <= s < 40 ==> Inverse(s)
  {
  }

  lemma From40()
    ensures forall s :: 40 <= s < 48 ==> Inverse(s)
  {
  }

  lemma From48()
    ensures forall s :: 48 <= s < 56 ==> Inverse(s)
  {
  }

  lemma From56()
    ensures forall s :: 56 <= s < 64 ==> Inverse(s)
  {
  }

  lemma From64()
    ensures forall s :: 64 <= s < 72 ==> Inverse(s)
  {
  }

  lemma From72()
    ensures forall s :: 72 <= s < 80 ==> Inverse(s)
  {
  }

  lemma From80()
    ensures forall s :: 80 <= s < 88 ==> Inverse(s)
  {
  }

  lemma From88()
    ensures forall s :: 88 <= s < 96 ==> Inverse(s)
  {
  }

  lemma From96()
    ensures forall s :: 96 <= s < 104 ==> Inverse(s)
  {
  }

  lemma From104()
    ensures forall s :: 104 <= s < 112 ==> Inverse(s)
  {
  }

  lemma From112()
    ensures forall s :: 112 <= s < 120 ==> Inverse(s)
  {
  }

  lemma From120()
    ensures forall s :: 120 <= s < 128 ==> Inverse(s)
  {
  }

  lemma From128()
    ensures forall s :: 128 <= s < 136 ==> Inverse(s)
  {
  }

  lemma From136()
    ensures forall s :: 136 <= s < 144 ==> Inverse(s)
  {
  }

  lemma From144()
    ensures forall s :: 144 <= s < 152 ==> Inverse(s)
  {
  }

  lemma From152()
    ensures forall s :: 152 <= s < 160 ==> Inverse(s)
  {
  }

  lemma From160()
    ensures forall s :: 160 <= s < 168 ==> Inverse(s)
  {
  }

  lemma From168()
    ensures forall s :: 168 <= s < 176 ==> Inverse(s)
  {
  }

  lemma From176()
    ensures forall s :: 176 <= s < 184 ==> Inverse(s)
  {
  }

  lemma From184()
    ensures forall s :: 184 <= s < 192 ==> Inverse(s)
  {
  }

  lemma From192()
    ensures forall s :: 192 <= s < 200 ==> Inverse(s)
  {
  }

  lemma From200()
    ensures forall s :: 200 <= s < 208 ==> Inverse(s)
  {
  }

  lemma From208()
    ensures forall s :: 208 <= s < 216 ==> Inverse(s)
  {
  }

  lemma From216()
    ensures forall s :: 216 <= s < 224 ==> Inverse(s)
  {
  }

  lemma From224()
    ensures forall s :: 224 <= s < 232 ==> Inverse(s)
  {
  }

  lemma From232()
    ensures forall s :: 232 <= s < 240 ==> Inverse(s)
  {
  }

  lemma From240()
    ensures forall s :: 240 <= s < 248 ==> Inverse(s)
  {
  }

  lemma From248()
    ensures forall s :: 248 <= s < 256 ==> Inverse(s)
  {
  }

  lemma From256()
    ensures forall s :: 256 <= s < 257 ==> Inverse(s)
  {
  }

  lemma PlaceInverse(s: nat)
    requires s <= EOS
    ensures Inverse(s)
  {
    From0();
    From8();
    From16();
    From24();
    From32();
    From40();
    From48();
    From56();
    From64();
    From72();
    From80();
    From88();
    From96();
    From104();
    From112();
    From120();
    From128();
    From136();
    From144();
    From152();
    From160();
    From168();
    From176();
    From184();
    From192();
    From200();
    From208();
    From216();
    From224();
    From232();
    From240();
    From248();
    From256();
  }

  /** Two symbols do not share a code. */
  lemma PlaceInjective(s: nat, s': nat)
    requires s <= EOS && s' <= EOS && s != s'
    ensures Place(s) <= EOS && Place(s') <= EOS && Place(s) != Place(s')
  {
    PlaceInverse(s);
    PlaceInverse(s');
  }

  // ----- Among codes of one length, the symbols are in increasing order -----

  predicate Ordered(k: nat) {
    k < EOS && CodeAt(k).len == CodeAt(k + 1).len ==> SymbolAt(k) < SymbolAt(k + 1)
  }

  lemma Order0()
    ensures forall k :: 0 <= k < 16 ==> Ordered(k)
  {
  }

  lemma Order16()
    ensures forall k :: 16 <= k < 32 ==> Ordered(k)
  {
  }

  lemma Order32()
    ensures forall k :: 32 <= k < 48 ==> Ordered(k)
  {
  }

  lemma Order48()
    ensures forall k :: 48 <= k < 64 ==> Ordered(k)
  {
  }

  lemma Order64()
    ensures forall k :: 64 <= k < 80 ==> Ordered(k)
  {
  }

  lemma Order80()
    ensures forall k :: 80 <= k < 96 ==> Ordered(k)
  {
  }

  lemma Order96()
    ensures forall k :: 96 <= k < 112 ==> Ordered(k)
  {
  }

  lemma Order112()
    ensures forall k :: 112 <= k < 128 ==> Ordered(k)
  {
  }

  lemma Order128()
    ensures forall k :: 128 <= k < 144 ==> Ordered(k)
  {
  }

  lemma Order144()
    ensures forall k :: 144 <= k < 160 ==> Ordered(k)
  {
  }

  lemma Order160()
    ensures forall k :: 160 <= k < 176 ==> Ordered(k)
  {
  }

  lemma Order176()
    ensures forall k :: 176 <= k < 192 ==> Ordered(k)
  {
  }

  lemma Order192()
    ensures forall k :: 192 <= k < 208 ==> Ordered(k)
  {
  }

  lemma Order208()
    ensures forall k :: 208 <= k < 224 ==> Ordered(k)
  {
  }

  lemma Order224()
    ensures forall k :: 224 <= k < 240 ==> Ordered(k)
  {
  }

  lemma Order240()
    ensures forall k :: 240 <= k < 256 ==> Ordered(k)
  {
  }

  lemma NextSymbol(k: nat)
    requires k < EOS
    ensures Ordered(k)
  {
    Order0();
    Order16();
    Order32();
    Order48();
    Order64();
    Order80();
    Order96();
    Order112();
    Order128();
    Order144();
    Order160();
    Order176();
    Order192();
    Order208();
    Order224();
    Order240();
  }

  /** So the code is given by the lengths of the symbols' codes alone. */
  lemma {:induction false} SymbolsInOrder(a: nat, b: nat)
    requires a < b <= EOS && CodeAt(a).len == CodeAt(b).len
    ensures SymbolAt(a) < SymbolAt(b)
    decreases b
  {
    NextSymbol(b - 1);
    LengthsIncrease(a, b - 1);
    LengthsIncrease(b - 1, b);
    if a < b - 1 {
      SymbolsInOrder(a, b - 1);
    }
  }

  lemma LengthsIncrease(a: nat, b: nat)
    requires a <= b
    ensures CodeAt(a).len <= CodeAt(b).len
  {
  }

  // ----- No code starts with another -----

  /** The numbers of thirty bits that start with a code: from Start on, Size of them. */
  ghost function Start(e: Entry): nat
    requires e.len <= 30
  {
    Shl(e.val, 30 - e.len)
  }

  ghost function Size(e: Entry): nat
    requires e.len <= 30
  {
    Pow2(30 - e.len)
  }

  function Power(n: nat): nat {
    match n
    case 0 => 0x1 case 1 => 0x2 case 2 => 0x4
    case 3 => 0x8 case 4 => 0x10 case 5 => 0x20
    case 6 => 0x40 case 7 => 0x80 case 8 => 0x100
    case 9 => 0x200 case 10 => 0x400 case 11 => 0x800
    case 12 => 0x1000 case 13 => 0x2000 case 14 => 0x4000
    case 15 => 0x8000 case 16 => 0x10000 case 17 => 0x20000
    case 18 => 0x40000 case 19 => 0x80000 case 20 => 0x100000
    case 21 => 0x200000 case 22 => 0x400000 case 23 => 0x800000
    case 24 => 0x1000000 case 25 => 0x2000000 case 26 => 0x4000000
    case 27 => 0x8000000 case 28 => 0x10000000 case 29 => 0x20000000
    case 30 => 0x40000000
    case _ => 0
  }

  lemma {:induction false} Powers(n: nat)
    requires n <= 30
    ensures Pow2(n) == Power(n)
  {
    if n > 0 {
      Powers(n - 1);
      PowerStep(n);
    }
  }

  lemma PowerStep(n: nat)
    requires 0 < n <= 30
    ensures Power(n) == 2 * Power(n - 1)
  {
  }

  lemma Bounded(e: Entry)
    requires 1 <= e.len <= 30 && e.val < Power(e.len)
    ensures BoundedEntry(e)
  {
    Powers(e.len);
  }

  lemma CodeBounds(k: nat)
    requires k <= EOS
    ensures 1 <= CodeAt(k).len <= 30 && CodeAt(k).val < Power(CodeAt(k).len)
  {
  }

  lemma Touches(e: Entry, f: Entry)
    requires e.len <= 30 && f.len <= 30
    requires e.val * Power(30 - e.len) + Power(30 - e.len) == f.val * Power(30 - f.len)
    ensures Start(e) + Size(e) == Start(f)
  {
    StartIs(e);
    StartIs(f);
  }

  lemma StartIs(e: Entry)
    requires e.len <= 30
    ensures Start(e) == e.val * Power(30 - e.len) && Size(e) == Power(30 - e.len)
  {
    ShlMul(e.val, 30 - e.len);
    Powers(30 - e.len);
  }

  lemma NextCode(k: nat)
    requires k < EOS
    ensures var e, f := CodeAt(k), CodeAt(k + 1);
            e.val * Power(30 - e.len) + Power(30 - e.len) == f.val * Power(30 - f.len)
  {
  }

  /** Each code begins where the one before it ends. */
  lemma Adjacent(k: nat)
    requires k < EOS
    ensures Start(CodeAt(k)) + Size(CodeAt(k)) == Start(CodeAt(k + 1))
  {
    NextCode(k);
    Touches(CodeAt(k), CodeAt(k + 1));
  }

  lemma {:induction false} InOrder(a: nat, b: nat)
    requires a < b <= EOS
    ensures Start(CodeAt(a)) + Size(CodeAt(a)) <= Start(CodeAt(b))
    decreases b
  {
    Adjacent(b - 1);
    if a < b - 1 {
      InOrder(a, b - 1);
    }
  }

  /** A code that starts with another is inside it. */
  lemma PrefixInside(e: Entry, f: Entry)
    requires BoundedEntry(e) && BoundedEntry(f) && Code(e) <= Code(f)
    ensures Start(e) <= Start(f) < Start(e) + Size(e)
  {
    if e.len == f.len {
      ToBitsInjective(e.val, f.val, e.len);
    } else {
      PrefixTest(f, e.val, e.len);
      ShrInside(e.val, f.val, f.len - e.len, 30 - f.len, 30 - e.len);
    }
  }

  lemma ShrInside(v: nat, w: nat, d: nat, m: nat, n: nat)
    requires Shr(w, d) == v && n == d + m
    ensures Shl(v, n) <= Shl(w, m) < Shl(v, n) + Pow2(n)
  {
    HighLow(w, d);
    ShlSum(Shl(v, d), Low(w, d), m);
    ShlAdd(v, d, m);
    ShlBound(Low(w, d), d, m);
  }

  lemma NoPrefix(a: nat, b: nat)
    requires a <= EOS && b <= EOS && a != b
    ensures !(Code(CodeAt(a)) <= Code(CodeAt(b)))
  {
    CodeBounds(a);
    CodeBounds(b);
    Bounded(CodeAt(a));
    Bounded(CodeAt(b));
    if Code(CodeAt(a)) <= Code(CodeAt(b)) {
      PrefixInside(CodeAt(a), CodeAt(b));
      InOrder(if a < b then a else b, if a < b then b else a);
    }
  }

  /** The table is one that the coder works for. */
  lemma TableValid()
    ensures ValidTable(Table())
  {
    forall s | 0 <= s <= EOS
      ensures BoundedEntry(Table()[s])
    {
      PlaceInverse(s);
      CodeBounds(Place(s));
      Bounded(CodeAt(Place(s)));
    }
    forall s, s' | 0 <= s <= EOS && 0 <= s' <= EOS && s != s'
      ensures !(Code(Table()[s]) <= Code(Table()[s']))
    {
      PlaceInjective(s, s');
      NoPrefix(Place(s), Place(s'));
    }
    LastCode();
  }

  /** The end of a string has the last code, thirty ones. */
  lemma LastCode()
    ensures Code(Table()[EOS]) == Ones(30)
  {
    assert Table()[EOS] == Entry(30, 0x3fff_ffff);
    ToBitsOnes(30);
    Pow2Values();
  }

  /** Decode a string that may be any bytes. */
  method DecodeString(input: seq<byte>) returns (r: Res<seq<byte>>)
    ensures Decodes(Table(), input, r)
  {
    TableValid();
    assert ToBits(0, 0) == [];
    var root := MakeTree(Table(), 0, 0);
    r := Decode(Table(), root, input);
  }

  method EncodeString(s: seq<byte>) returns (wire: seq<byte>)
    ensures IsEncoding(Table(), s, wire)
  {
    TableValid();
    wire := Encode(Table(), s);
  }

  /** Decoding what was encoded returns the string, and encoding what was decoded the bytes. */
  method RoundTrip(s: seq<byte>, wire: seq<byte>) returns (r: Res<seq<byte>>, again: seq<byte>)
    ensures r == Ok(s)
    ensures IsEncoding(Table(), s, wire) <==> again == wire
  {
    TableValid();
    again := Encode(Table(), s);
    r := DecodeString(again);
    if IsEncoding(Table(), s, wire) {
      EncodingUnique(Table(), s, s, wire, again);
    }
  }
}
