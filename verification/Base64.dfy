/** Section 4 of RFC 4648, in terms of bits. */
module Base64Spec {
  const UPPER := "ABCDEFGHIJKLMNOPQRSTUVWXYZ"
  const LOWER := "abcdefghijklmnopqrstuvwxyz"
  const OTHER := "0123456789+/"
  const ALPHABET := UPPER + LOWER + OTHER
  const PAD := '='

  /** The bits of a byte, the most significant first. */
  function ByteBits(b: bv8): (r: seq<bool>)
    ensures |r| == 8
  {
    [b & 128 != 0, b & 64 != 0, b & 32 != 0, b & 16 != 0, b & 8 != 0, b & 4 != 0, b & 2 != 0, b & 1 != 0]
  }

  function SextetBits(v: bv6): (r: seq<bool>)
    ensures |r| == 6
  {
    [v & 32 != 0, v & 16 != 0, v & 8 != 0, v & 4 != 0, v & 2 != 0, v & 1 != 0]
  }

  function Bits(s: seq<bv8>): (r: seq<bool>)
    ensures |r| == 8 * |s|
  {
    if s == [] then [] else ByteBits(s[0]) + Bits(s[1..])
  }

  function Sextet(bits: seq<bool>): bv6
    requires |bits| == 6
  {
    (if bits[0] then 32 else 0) | (if bits[1] then 16 else 0) | (if bits[2] then 8 else 0) |
    (if bits[3] then 4 else 0) | (if bits[4] then 2 else 0) | (if bits[5] then 1 else 0)
  }

  function Byte(bits: seq<bool>): bv8
    requires |bits| == 8
  {
    (if bits[0] then 128 else 0) | (if bits[1] then 64 else 0) | (if bits[2] then 32 else 0) |
    (if bits[3] then 16 else 0) | (if bits[4] then 8 else 0) | (if bits[5] then 4 else 0) |
    (if bits[6] then 2 else 0) | (if bits[7] then 1 else 0)
  }

  function Zeros(n: nat): seq<bool> {
    seq(n, _ => false)
  }

  /** Groups of six bits; zero bits complete the last group. */
  function Sextets(bits: seq<bool>): seq<bv6> {
    if bits == [] then []
    else if |bits| < 6 then [Sextet(bits + Zeros(6 - |bits|))]
    else [Sextet(bits[..6])] + Sextets(bits[6..])
  }

  function Char(v: bv6): char {
    ALPHABET[v as int]
  }

  function Chars(vs: seq<bv6>): string {
    seq(|vs|, i requires 0 <= i < |vs| => Char(vs[i]))
  }

  /** One byte left over needs two pads, two bytes one. */
  function Padding(n: nat): string {
    if n % 3 == 1 then [PAD, PAD] else if n % 3 == 2 then [PAD] else []
  }

  function Code(s: seq<bv8>): string {
    Chars(Sextets(Bits(s)))
  }

  function Encoding(s: seq<bv8>): string {
    Code(s) + Padding(|s|)
  }

  // ----- Decoding

  function Index(c: char): int {
    if 'A' <= c <= 'Z' then c as int - 'A' as int
    else if 'a' <= c <= 'z' then c as int - 'a' as int + 26
    else if '0' <= c <= '9' then c as int - '0' as int + 52
    else if c == '+' then 62
    else if c == '/' then 63
    else -1
  }

  function Value(c: char): bv6 {
    var i := Index(c);
    if 0 <= i < 64 then i as bv6 else 0
  }

  /** The bits of the characters before the pads. */
  function CharBits(t: string): seq<bool> {
    if t == "" || t[0] == PAD then [] else SextetBits(Value(t[0])) + CharBits(t[1..])
  }

  /** Whole bytes; bits left over are dropped. */
  function Bytes(bits: seq<bool>): seq<bv8> {
    if |bits| < 8 then [] else [Byte(bits[..8])] + Bytes(bits[8..])
  }

  function Decoding(t: string): seq<bv8> {
    Bytes(CharBits(t))
  }

  lemma UpperAt(i: int)
    requires 0 <= i < 26
    ensures UPPER[i] as int == 'A' as int + i
  {
  }

  lemma LowerAt(i: int)
    requires 0 <= i < 26
    ensures LOWER[i] as int == 'a' as int + i
  {
  }

  lemma OtherAt(i: int)
    requires 0 <= i < 12
    ensures Index(OTHER[i]) == i + 52 && OTHER[i] != PAD
  {
  }

  lemma AlphabetAt(i: int)
    requires 0 <= i < 64
    ensures Index(ALPHABET[i]) == i && ALPHABET[i] != PAD
  {
    if i < 26 {
      UpperAt(i);
    } else if i < 52 {
      LowerAt(i - 26);
    } else {
      OtherAt(i - 52);
    }
  }

  lemma SextetRoundTrip(bits: seq<bool>)
    requires |bits| == 6
    ensures SextetBits(Sextet(bits)) == bits
  {
  }

  lemma ByteRoundTrip(b: bv8)
    ensures Byte(ByteBits(b)) == b
  {
  }

  lemma CharRoundTrip(v: bv6)
    ensures Value(Char(v)) == v && Char(v) != PAD
  {
    AlphabetAt(v as int);
  }

  lemma CharBitsHead(v: bv6, t: string)
    ensures CharBits([Char(v)] + t) == SextetBits(v) + CharBits(t)
  {
    CharRoundTrip(v);
    assert ([Char(v)] + t)[1..] == t;
  }

  lemma CharsHead(v: bv6, vs: seq<bv6>, t: string)
    ensures Chars([v] + vs) + t == [Char(v)] + (Chars(vs) + t)
  {
  }

  lemma CharBitsOfFew(bits: seq<bool>, padding: string)
    requires 0 < |bits| < 6 && (padding == "" || padding[0] == PAD)
    ensures CharBits(Chars(Sextets(bits)) + padding) == bits + Zeros(6 - |bits|)
  {
    var v := Sextet(bits + Zeros(6 - |bits|));
    SextetRoundTrip(bits + Zeros(6 - |bits|));
    CharsHead(v, [], padding);
    assert [v] + [] == [v] && Chars([]) + padding == padding;
    CharBitsHead(v, padding);
  }

  lemma CharBitsOfGroup(bits: seq<bool>, padding: string, n: nat)
    requires |bits| >= 6 && CharBits(Chars(Sextets(bits[6..])) + padding) == bits[6..] + Zeros(n)
    ensures CharBits(Chars(Sextets(bits)) + padding) == bits + Zeros(n)
  {
    var v, vs := Sextet(bits[..6]), Sextets(bits[6..]);
    SextetRoundTrip(bits[..6]);
    CharsHead(v, vs, padding);
    CharBitsHead(v, Chars(vs) + padding);
    Associative(bits[..6], bits[6..], Zeros(n));
    assert bits[..6] + bits[6..] == bits;
  }

  /** The characters give the bits back, and fewer than six zero bits. */
  lemma {:induction false} CharBitsOfSextets(bits: seq<bool>, padding: string) returns (n: nat)
    requires padding == "" || padding[0] == PAD
    ensures n < 6 && CharBits(Chars(Sextets(bits)) + padding) == bits + Zeros(n)
    decreases |bits|
  {
    if bits == [] {
      n := 0;
    } else if |bits| < 6 {
      n := 6 - |bits|;
      CharBitsOfFew(bits, padding);
    } else {
      n := CharBitsOfSextets(bits[6..], padding);
      CharBitsOfGroup(bits, padding, n);
    }
  }

  lemma {:induction false} BytesOfBits(s: seq<bv8>, n: nat)
    requires n < 8
    ensures Bytes(Bits(s) + Zeros(n)) == s
  {
    if s != [] {
      var bits := Bits(s) + Zeros(n);
      assert bits[..8] == ByteBits(s[0]);
      assert bits[8..] == Bits(s[1..]) + Zeros(n);
      ByteRoundTrip(s[0]);
      BytesOfBits(s[1..], n);
    }
  }

  /** Decoding undoes encoding on every byte string. */
  lemma DecodingUndoesEncoding(s: seq<bv8>)
    ensures Decoding(Encoding(s)) == s
  {
    var n := CharBitsOfSextets(Bits(s), Padding(|s|));
    BytesOfBits(s, n);
  }

  lemma {:induction false} SextetsLength(bits: seq<bool>)
    ensures |Sextets(bits)| == (|bits| + 5) / 6
    decreases |bits|
  {
    if |bits| >= 6 {
      SextetsLength(bits[6..]);
    }
  }

  lemma {:induction false} SextetsAppend(xs: seq<bool>, ys: seq<bool>)
    requires |xs| % 6 == 0
    ensures Sextets(xs + ys) == Sextets(xs) + Sextets(ys)
    decreases |xs|
  {
    if xs == [] {
      assert xs + ys == ys;
    } else {
      var head, rest := xs[..6], xs[6..];
      SextetsAppend(rest, ys);
      assert (xs + ys)[..6] == head;
      assert (xs + ys)[6..] == rest + ys;
      assert Sextets(xs) == [Sextet(head)] + Sextets(rest);
    }
  }

  lemma Associative(xs: seq<bool>, ys: seq<bool>, zs: seq<bool>)
    ensures (xs + ys) + zs == xs + (ys + zs)
  {
  }

  lemma BitsHead(b: bv8, s: seq<bv8>)
    ensures Bits([b] + s) == ByteBits(b) + Bits(s)
  {
    assert ([b] + s)[1..] == s;
  }

  lemma {:induction false} BitsAppend(s: seq<bv8>, t: seq<bv8>)
    ensures Bits(s + t) == Bits(s) + Bits(t)
  {
    if s == [] {
      assert s + t == t;
    } else {
      var b, rest := s[0], s[1..];
      assert s + t == [b] + (rest + t);
      BitsHead(b, rest + t);
      BitsAppend(rest, t);
      Associative(ByteBits(b), Bits(rest), Bits(t));
    }
  }

  lemma CharsAppend(vs: seq<bv6>, ws: seq<bv6>)
    ensures Chars(vs + ws) == Chars(vs) + Chars(ws)
  {
  }

  /** Whole groups of three bytes are encoded on their own. */
  lemma GroupsAppend(s: seq<bv8>, t: seq<bv8>)
    requires |s| % 3 == 0
    ensures Code(s + t) == Code(s) + Code(t)
  {
    var xs, ys := Bits(s), Bits(t);
    BitsAppend(s, t);
    SextetsAppend(xs, ys);
    CharsAppend(Sextets(xs), Sextets(ys));
  }
}

/** The encoder of read_file. */
module ReadFile {
  import opened Base64Spec

  const NUL := 0 as char

  function Base64EncodedLength(origLen: nat): nat {
    (origLen + 2) / 3 * 4
  }

  /** Every group of three bytes, and a last one of fewer, takes four characters. */
  lemma LengthOfGroup(n: nat)
    ensures n >= 3 ==> Base64EncodedLength(n) == Base64EncodedLength(n - 3) + 4
    ensures 0 < n < 3 ==> Base64EncodedLength(n) == 4
    ensures n > 0 ==> Base64EncodedLength(n) >= 4
    ensures Base64EncodedLength(0) == 0
  {
  }

  lemma EncodingLength(s: seq<bv8>)
    ensures |Encoding(s)| == Base64EncodedLength(|s|)
  {
    SextetsLength(Bits(s));
    var n, k := |s|, |s| / 3;
    assert n == 3 * k + n % 3;
  }

  /** The six bits of the container that start at a position. */
  function Letter(container: bv32, shift: int): char
    requires 0 <= shift <= 18
  {
    Char(SixBits(container, shift))
  }

  /** Up to three bytes, as the container holds them. */
  function Container(a: bv8, b: bv8, c: bv8): bv32 {
    ((a as bv32) << 16) | ((b as bv32) << 8) | (c as bv32)
  }

  function SixBits(container: bv32, shift: int): bv6
    requires 0 <= shift <= 18
  {
    ((container >> shift) & 0x3f) as bv6
  }

  lemma SixBitsAt18(a: bv8, b: bv8, c: bv8)
    ensures SixBits(Container(a, b, c), 18) == Sextet(ByteBits(a)[..6])
  {
    assert Sextet(ByteBits(a)[..6]) == (a >> 2) as bv6;
  }

  lemma SixBitsAt12(a: bv8, b: bv8, c: bv8)
    ensures SixBits(Container(a, b, c), 12) == Sextet(ByteBits(a)[6..] + ByteBits(b)[..4])
  {
  }

  lemma SixBitsAt6(a: bv8, b: bv8, c: bv8)
    ensures SixBits(Container(a, b, c), 6) == Sextet(ByteBits(b)[4..] + ByteBits(c)[..2])
  {
  }

  lemma SixBitsAt0(a: bv8, b: bv8, c: bv8)
    ensures SixBits(Container(a, b, c), 0) == Sextet(ByteBits(c)[2..])
  {
  }

  /** The four groups of six bits in a container of three bytes. */
  lemma ContainerSextets(a: bv8, b: bv8, c: bv8)
    ensures var bits := ByteBits(a) + ByteBits(b) + ByteBits(c);
            && Letter(Container(a, b, c), 18) == Char(Sextet(bits[..6]))
            && Letter(Container(a, b, c), 12) == Char(Sextet(bits[6..12]))
            && Letter(Container(a, b, c), 6) == Char(Sextet(bits[12..18]))
            && Letter(Container(a, b, c), 0) == Char(Sextet(bits[18..]))
  {
    var bits := ByteBits(a) + ByteBits(b) + ByteBits(c);
    SixBitsAt18(a, b, c);
    SixBitsAt12(a, b, c);
    SixBitsAt6(a, b, c);
    SixBitsAt0(a, b, c);
    assert bits[..6] == ByteBits(a)[..6] && bits[6..12] == ByteBits(a)[6..] + ByteBits(b)[..4];
    assert bits[12..18] == ByteBits(b)[4..] + ByteBits(c)[..2] && bits[18..] == ByteBits(c)[2..];
  }

  function Letters(container: bv32): string {
    [Letter(container, 18), Letter(container, 12), Letter(container, 6), Letter(container, 0)]
  }

  lemma BitsOfThree(a: bv8, b: bv8, c: bv8)
    ensures Bits([a, b, c]) == ByteBits(a) + ByteBits(b) + ByteBits(c)
  {
    assert [a, b, c] == [a] + ([b] + ([c] + []));
    BitsHead(a, [b] + ([c] + []));
    BitsHead(b, [c] + []);
    BitsHead(c, []);
    Associative(ByteBits(a), ByteBits(b), ByteBits(c));
  }

  lemma SextetsHead(bits: seq<bool>, k: nat)
    requires k + 6 <= |bits|
    ensures Sextets(bits[k..]) == [Sextet(bits[k..k + 6])] + Sextets(bits[k + 6..])
  {
    assert bits[k..][..6] == bits[k..k + 6] && bits[k..][6..] == bits[k + 6..];
  }

  lemma LastSextets(bits: seq<bool>)
    requires |bits| == 24
    ensures Sextets(bits[12..]) == [Sextet(bits[12..18]), Sextet(bits[18..24])]
  {
    assert bits[24..] == [];
    SextetsHead(bits, 18);
    SextetsHead(bits, 12);
  }

  lemma FourSextets(bits: seq<bool>)
    requires |bits| == 24
    ensures Sextets(bits[0..]) == [Sextet(bits[0..6]), Sextet(bits[6..12]), Sextet(bits[12..18]), Sextet(bits[18..24])]
  {
    LastSextets(bits);
    SextetsHead(bits, 6);
    SextetsHead(bits, 0);
  }

  /** Three bytes make four letters. */
  lemma GroupOfThree(a: bv8, b: bv8, c: bv8)
    ensures Code([a, b, c]) == Letters(Container(a, b, c))
  {
    BitsOfThree(a, b, c);
    var bits := ByteBits(a) + ByteBits(b) + ByteBits(c);
    assert bits[0..] == bits && bits[0..6] == bits[..6] && bits[18..24] == bits[18..];
    FourSextets(bits);
    ContainerSextets(a, b, c);
  }

  /** A group of one or two bytes has the first letters of the group that zero bytes complete. */
  lemma GroupOfOne(a: bv8)
    ensures Code([a]) == Letters(Container(a, 0, 0))[..2]
  {
    CodeOfOne(a, ByteBits(a) + ByteBits(0) + ByteBits(0));
    ContainerSextets(a, 0, 0);
    LettersFront(Container(a, 0, 0));
  }

  lemma CodeOfOne(a: bv8, all: seq<bool>)
    requires all == ByteBits(a) + ByteBits(0) + ByteBits(0)
    ensures Code([a]) == [Char(Sextet(all[..6])), Char(Sextet(all[6..12]))]
  {
    var bits := ByteBits(a);
    assert [a][1..] == [] && Bits([a]) == bits;
    assert bits[..6] == all[..6] && bits[6..] + Zeros(4) == all[6..12];
    assert Sextets(bits) == [Sextet(all[..6]), Sextet(all[6..12])];
  }

  lemma LettersFront(container: bv32)
    ensures Letters(container)[..2] == [Letter(container, 18), Letter(container, 12)]
    ensures Letters(container)[..3] == [Letter(container, 18), Letter(container, 12), Letter(container, 6)]
  {
  }

  lemma SextetsOfTwo(bits: seq<bool>, all: seq<bool>)
    requires |bits| == 16 && all == bits + Zeros(8)
    ensures Sextets(bits) == [Sextet(all[..6]), Sextet(all[6..12]), Sextet(all[12..18])]
  {
    assert bits[0..] == bits && bits[0..6] == all[..6] && bits[6..12] == all[6..12];
    assert bits[12..] + Zeros(2) == all[12..18];
    SextetsHead(bits, 0);
    SextetsHead(bits, 6);
  }

  lemma GroupOfTwo(a: bv8, b: bv8)
    ensures Code([a, b]) == Letters(Container(a, b, 0))[..3]
  {
    var bits, all := ByteBits(a) + ByteBits(b), ByteBits(a) + ByteBits(b) + ByteBits(0);
    assert [a, b] == [a] + ([b] + []);
    BitsHead(a, [b] + []);
    BitsHead(b, []);
    assert Bits([]) == [] && ByteBits(b) + [] == ByteBits(b);
    assert ByteBits(0) == Zeros(8);
    SextetsOfTwo(bits, all);
    ContainerSextets(a, b, 0);
    LettersFront(Container(a, b, 0));
  }

  /** The test vectors of section 10 of RFC 4648 for f, fo and foo. */
  lemma TestVectors()
    ensures Encoding([102]) == "Zg==" && Encoding([102, 111]) == "Zm8=" && Encoding([102, 111, 111]) == "Zm9v"
  {
    GroupOfOne(102);
    GroupOfTwo(102, 111);
    GroupOfThree(102, 111, 111);
    LettersFront(Container(102, 0, 0));
    LettersFront(Container(102, 111, 0));
    OneByteVector();
    TwoByteVector();
    ThreeByteVector();
  }

  lemma OneByteVector()
    ensures SixBits(Container(102, 0, 0), 18) == 25 && SixBits(Container(102, 0, 0), 12) == 32
  {
  }

  lemma TwoByteVector()
    ensures SixBits(Container(102, 111, 0), 18) == 25 && SixBits(Container(102, 111, 0), 12) == 38
    ensures SixBits(Container(102, 111, 0), 6) == 60
  {
  }

  lemma ThreeByteVector()
    ensures SixBits(Container(102, 111, 111), 18) == 25 && SixBits(Container(102, 111, 111), 12) == 38
    ensures SixBits(Container(102, 111, 111), 6) == 61 && SixBits(Container(102, 111, 111), 0) == 47
  {
  }

  /** The container between two bytes. */
  function Partial(s: seq<bv8>): bv32
    requires |s| < 3
  {
    if |s| == 0 then 0
    else if |s| == 1 then (s[0] as bv32) << 8
    else ((s[0] as bv32) << 16) | ((s[1] as bv32) << 8)
  }

  function WithByte(container: bv32, b: bv8): bv32 {
    container | (b as bv32)
  }

  function ShiftedByte(container: bv32): bv32 {
    container << 8
  }

  /** The shift by 16 - 8 * charCount. */
  function ShiftedLast(container: bv32, charCount: nat): bv32
    requires 1 <= charCount <= 2
  {
    if charCount == 1 then container << 8 else container
  }

  lemma PartialGrows(s: seq<bv8>, c: bv8)
    requires |s| < 3
    ensures |s| < 2 ==> ShiftedByte(WithByte(Partial(s), c)) == Partial(s + [c])
    ensures |s| == 2 ==> WithByte(Partial(s), c) == Container(s[0], s[1], c)
  {
  }

  lemma PartialEnds(s: seq<bv8>)
    requires 0 < |s| < 3
    ensures ShiftedLast(Partial(s), |s|) == LastContainer(s)
  {
  }

  function LastContainer(s: seq<bv8>): bv32
    requires 0 < |s| < 3
  {
    Container(s[0], if |s| == 2 then s[1] else 0, 0)
  }

  /** Writes the letters of a whole group. */
  method PutGroup(ret: array<char>, outPos: nat, container: bv32)
    requires outPos + 4 <= ret.Length
    modifies ret
    ensures ret[..outPos + 4] == old(ret[..outPos]) + Letters(container)
  {
    ret[outPos] := Letter(container, 18);
    ret[outPos + 1] := Letter(container, 12);
    ret[outPos + 2] := Letter(container, 6);
    ret[outPos + 3] := Letter(container, 0);
  }

  /** Writes the letters of a group that is not whole, and its pads. */
  method PutRest(ret: array<char>, outPos: nat, container: bv32, charCount: nat)
    requires outPos + 4 == ret.Length && 1 <= charCount <= 2
    modifies ret
    ensures ret[..] == old(ret[..outPos]) + Letters(container)[..charCount + 1] + Padding(charCount)
  {
    ret[outPos] := Letter(container, 18);
    ret[outPos + 1] := Letter(container, 12);
    if charCount == 1 {
      ret[outPos + 2] := PAD;
    } else {
      ret[outPos + 2] := Letter(container, 6);
    }
    ret[outPos + 3] := PAD;
    assert ret[outPos..] == Letters(container)[..charCount + 1] + Padding(charCount);
    assert ret[..] == ret[..outPos] + ret[outPos..];
  }

  /** base64_encode: the encoding of RFC 4648; nothing for no buffer. */
  method Base64Encode(inBuf: array?<bv8>, inLen: nat) returns (text: string)
    requires inBuf != null ==> inLen <= inBuf.Length
    ensures text == if inBuf == null then "" else Encoding(inBuf[..inLen])
  {
    if inBuf == null || inLen == 0 {
      assert inBuf != null ==> inBuf[..inLen] == [] && Encoding([]) == "";
      return "";
    }
    var bitsContainer: bv32, charCount, outPos := 0, 0, 0;
    var ret := new char[Base64EncodedLength(inLen)](_ => NUL);
    ghost var whole: seq<bv8>, group: seq<bv8> := [], [];
    assert inBuf[..0] == whole + group;
    for i := 0 to inLen
      invariant inBuf[..i] == whole + group && |whole| % 3 == 0 && |group| == charCount < 3
      invariant bitsContainer == Partial(group)
      invariant outPos + Base64EncodedLength(inLen - |whole|) == ret.Length
      invariant ret[..outPos] == Code(whole)
    {
      outPos, bitsContainer, charCount, whole, group :=
        TakeByte(ret, outPos, bitsContainer, charCount, inBuf[i], whole, group, inLen);
    }
    LengthOfGroup(charCount);
    PutTail(ret, outPos, bitsContainer, charCount, whole, group);
    text := ret[..];
  }

  /** The body of the loop of base64_encode. */
  method TakeByte(ret: array<char>, outPos: nat, container: bv32, charCount: nat, currByte: bv8,
                  ghost whole: seq<bv8>, ghost group: seq<bv8>, ghost inLen: nat)
    returns (outPos': nat, container': bv32, charCount': nat, ghost whole': seq<bv8>, ghost group': seq<bv8>)
    requires |whole| % 3 == 0 && |group| == charCount < 3 && container == Partial(group)
    requires |whole| + |group| < inLen && outPos + Base64EncodedLength(inLen - |whole|) == ret.Length
    requires ret[..outPos] == Code(whole)
    modifies ret
    ensures |whole'| % 3 == 0 && |group'| == charCount' < 3 && container' == Partial(group')
    ensures whole' + group' == whole + group + [currByte]
    ensures |whole'| <= inLen && outPos' + Base64EncodedLength(inLen - |whole'|) == ret.Length
    ensures ret[..outPos'] == Code(whole')
  {
    LengthOfGroup(inLen - |whole|);
    PartialGrows(group, currByte);
    outPos', container', charCount' := outPos, WithByte(container, currByte), charCount + 1;
    whole', group' := whole, group + [currByte];
    if charCount' == 3 {
      GroupDone(whole, group, currByte);
      PutGroup(ret, outPos, container');
      outPos', container', charCount' := outPos + 4, 0, 0;
      whole', group' := whole + group', [];
    } else {
      container' := ShiftedByte(container');
    }
  }

  /** What follows the loop of base64_encode. */
  method PutTail(ret: array<char>, outPos: nat, container: bv32, charCount: nat, ghost whole: seq<bv8>,
                 ghost group: seq<bv8>)
    requires |whole| % 3 == 0 && |group| == charCount < 3 && container == Partial(group)
    requires outPos + (if charCount > 0 then 4 else 0) == ret.Length && ret[..outPos] == Code(whole)
    modifies ret
    ensures ret[..] == Encoding(whole + group)
  {
    if charCount > 0 {
      PartialEnds(group);
      RestDone(whole, group);
      PutRest(ret, outPos, ShiftedLast(container, charCount), charCount);
    } else {
      assert whole + group == whole && ret[..outPos] == ret[..];
      WholeDone(whole);
    }
  }

  lemma WholeDone(whole: seq<bv8>)
    requires |whole| % 3 == 0
    ensures Encoding(whole) == Code(whole)
  {
    assert Padding(|whole|) == "" && Code(whole) + "" == Code(whole);
  }

  lemma GroupDone(whole: seq<bv8>, group: seq<bv8>, c: bv8)
    requires |whole| % 3 == 0 && |group| == 2
    ensures Code(whole + (group + [c])) == Code(whole) + Letters(Container(group[0], group[1], c))
  {
    assert group + [c] == [group[0], group[1], c];
    GroupsAppend(whole, group + [c]);
    GroupOfThree(group[0], group[1], c);
  }

  lemma RestDone(whole: seq<bv8>, group: seq<bv8>)
    requires |whole| % 3 == 0 && 1 <= |group| <= 2
    ensures Encoding(whole + group) ==
            Code(whole) + Letters(LastContainer(group))[..|group| + 1] + Padding(|group|)
  {
    GroupsAppend(whole, group);
    RestCode(group);
    assert (|whole| + |group|) % 3 == |group| % 3;
  }

  lemma RestCode(group: seq<bv8>)
    requires 1 <= |group| <= 2
    ensures Code(group) == Letters(LastContainer(group))[..|group| + 1]
  {
    if |group| == 1 {
      assert group == [group[0]];
      GroupOfOne(group[0]);
    } else {
      assert group == [group[0], group[1]];
      GroupOfTwo(group[0], group[1]);
    }
  }
}
