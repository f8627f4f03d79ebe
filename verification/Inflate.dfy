/** DEFLATE (RFC 1951): the decoder against every well-formed stream of stored, fixed and dynamic
    blocks, and the stored encoder as one source of such streams. */
module Inflate {
  import opened Bytes
  import opened LsbFirst
  import opened CanonicalHuffman
  import opened Lz77

  // ----- fields -----

  /** A number of `n` bits; `on` says that it is `v`. */
  method ReadField(data: seq<Byte>, bitPos0: nat, n: nat, ghost on: bool, ghost v: nat, ghost rest: seq<Bit>)
      returns (r: Option<nat>, bitPos: nat)
    requires on ==> v < Pow2(n) && Ahead(data, bitPos0, LsbBits(v, n) + rest)
    ensures r.Some? ==> bitPos == bitPos0 + n <= 8 * |data| && r.value < Pow2(n)
    ensures on ==> r == Some(v) && Ahead(data, bitPos, rest) && bitPos == bitPos0 + n
  {
    hide Pow2, LsbBits, Ahead, FromLsb, ByteBits;
    if on {
      Advance(data, bitPos0, LsbBits(v, n), n, rest);
      LsbRoundTrip(v, n);
    }
    r, bitPos := GetBits(data, bitPos0, n);
    if r.Some? {
      FromLsbBound(ByteBits(data)[bitPos0..bitPos0 + n]);
    }
  }

  // ----- Huffman codes -----

  datatype Tree = Tree(codes: seq<Code>, maxBits: nat)

  ghost predicate TreeOf(tree: Tree, lengths: seq<nat>) {
    tree.maxBits == MaxLen(lengths) && tree.codes == Table(lengths, |lengths|)
  }

  method BuildTree(lengths: seq<nat>) returns (tree: Tree)
    ensures TreeOf(tree, lengths)
  {
    var codes, maxBits := BuildCodes(lengths);
    tree := Tree(codes, maxBits);
  }

  /** One symbol, bit by bit: the codeword ahead gives its symbol and takes exactly its bits. */
  method DecodeHuffman(data: seq<Byte>, bitPos0: nat, tree: Tree, ghost lengths: seq<nat>, ghost on: bool, ghost s: nat,
                       ghost rest: seq<Bit>) returns (r: Option<nat>, bitPos: nat)
    requires on ==> TreeOf(tree, lengths) && HasWord(lengths, s) && Ahead(data, bitPos0, Word(lengths, s) + rest)
    ensures r.Some? ==> bitPos0 < bitPos <= 8 * |data|
    ensures on ==> r == Some(s) && Ahead(data, bitPos, rest)
  {
    hide ToBits, Pow2, FromBits, Kraft, CodeOf, Table, ByteBits, BitOf, MaxLen, LooksUp;
    bitPos := bitPos0;
    ghost var word := if on then Word(lengths, s) else [];
    if on {
      Advance(data, bitPos0, word, |word|, rest);
      SymbolFits(tree, lengths, s);
    }
    if tree.codes == [] {
      return None, bitPos;
    }
    var code: nat := 0;
    var len: nat := 1;
    NoFromBits();
    assert word[..0] == [];
    while len <= tree.maxBits
      invariant 1 <= len && bitPos == bitPos0 + len - 1
      invariant on ==> len <= |word| && code == FromBits(word[..len - 1])
      decreases tree.maxBits + 1 - len
    {
      if bitPos / 8 >= |data| {
        return None, bitPos;
      }
      ByteBitAt(data, bitPos);
      var bit := BitOf(data[bitPos / 8], bitPos % 8);
      code := 2 * code + bit;
      if on {
        WordBit(data, bitPos0, word, len, bit);
        CodePrefix(lengths, s, len);
      }
      bitPos := bitPos + 1;
      var found := Lookup(tree.codes, code, len);
      if on {
        LookupPrefix(lengths, s, len, found);
      }
      if found.Some? {
        return found, bitPos;
      }
      len := len + 1;
    }
    return None, bitPos;
  }

  lemma NoFromBits()
    ensures FromBits([]) == 0
  {
  }

  lemma SymbolFits(tree: Tree, lengths: seq<nat>, s: nat)
    requires TreeOf(tree, lengths) && HasWord(lengths, s)
    ensures tree.codes != [] && 1 <= lengths[s] <= tree.maxBits
  {
    var k := TableHas(lengths, |lengths|, s);
  }

  lemma WordBit(data: seq<Byte>, bitPos0: nat, word: seq<Bit>, len: nat, bit: Bit)
    requires 1 <= len <= |word| && bitPos0 + |word| <= 8 * |data|
    requires ByteBits(data)[bitPos0..bitPos0 + |word|] == word && bit == ByteBits(data)[bitPos0 + len - 1]
    ensures FromBits(word[..len]) == 2 * FromBits(word[..len - 1]) + bit
  {
    hide ByteBits, FromBits;
    assert word[len - 1] == bit;
    AddBit(word, len - 1, bit);
  }

  // ----- tokens -----

  const LENGTH_BASES: seq<nat> := [
    3, 4, 5, 6, 7, 8, 9, 10, 11, 13, 15, 17, 19, 23, 27, 31, 35, 43, 51, 59, 67, 83, 99, 115,
    131, 163, 195, 227, 258]
  const LENGTH_EXTRA: seq<nat> := [
    0, 0, 0, 0, 0, 0, 0, 0, 1, 1, 1, 1, 2, 2, 2, 2, 3, 3, 3, 3, 4, 4, 4, 4, 5, 5, 5, 5, 0]
  const DIST_BASES: seq<nat> := [
    1, 2, 3, 4, 5, 7, 9, 13, 17, 25, 33, 49, 65, 97, 129, 193, 257, 385, 513, 769, 1025, 1537,
    2049, 3073, 4097, 6145, 8193, 12289, 16385, 24577]
  const DIST_EXTRA: seq<nat> := [
    0, 0, 0, 0, 1, 1, 2, 2, 3, 3, 4, 4, 5, 5, 6, 6, 7, 7, 8, 8, 9, 9, 10, 10, 11, 11, 12, 12,
    13, 13]

  /** A literal byte, or a match by length code and distance code with their extra bits. */
  datatype Token = Literal(b: Byte) | Match(len: nat, lenExtra: nat, dist: nat, distExtra: nat)

  /** The code lengths of literals and lengths, and of distances. */
  datatype Coding = Coding(lit: seq<nat>, dist: seq<nat>)

  ghost predicate TokenOk(c: Coding, t: Token) {
    match t
    case Literal(b) => HasWord(c.lit, b)
    case Match(l, le, d, de) =>
      && l < 29 && d < 30 && HasWord(c.lit, 257 + l) && HasWord(c.dist, d)
      && le < Pow2(LENGTH_EXTRA[l]) && de < Pow2(DIST_EXTRA[d])
  }

  /** 2^n for the extra bits that occur. */
  lemma SmallPowers()
    ensures Pow2(0) == 1 && Pow2(1) == 2 && Pow2(2) == 4 && Pow2(3) == 8 && Pow2(4) == 16 && Pow2(5) == 32
    ensures Pow2(6) == 64 && Pow2(7) == 128 && Pow2(8) == 256 && Pow2(9) == 512 && Pow2(10) == 1024
    ensures Pow2(11) == 2048 && Pow2(12) == 4096 && Pow2(13) == 8192
  {
    assert Pow2(4) == 16;
    assert Pow2(8) == 256;
    assert Pow2(12) == 4096;
  }

  /** The length codes start at 3, four of each number of extra bits and eight without any. Each
      range begins where the one before it ends, up to 258, which the last code stands for alone. */
  lemma LengthsFollow(k: nat)
    requires k < 29
    ensures |LENGTH_BASES| == |LENGTH_EXTRA| == 29 && LENGTH_BASES[0] == 3
    ensures LENGTH_EXTRA[k] == if 4 <= k < 28 then k / 4 - 1 else 0
    ensures k < 27 ==> LENGTH_BASES[k + 1] == LENGTH_BASES[k] + Pow2(LENGTH_EXTRA[k])
    ensures k == 27 ==> LENGTH_BASES[k] + Pow2(LENGTH_EXTRA[k]) == 259
    ensures k == 28 ==> LENGTH_BASES[k] == 258
  {
    SmallPowers();
  }

  /** The distance codes start at 1, two of each number of extra bits and four without any, and
      reach up to 32768. */
  lemma DistancesFollow(d: nat)
    requires d < 30
    ensures |DIST_BASES| == |DIST_EXTRA| == 30 && DIST_BASES[0] == 1
    ensures DIST_EXTRA[d] == if d >= 2 then d / 2 - 1 else 0
    ensures DIST_BASES[d] + Pow2(DIST_EXTRA[d]) == if d < 29 then DIST_BASES[d + 1] else 32769
  {
    SmallPowers();
  }

  lemma TablesLong()
    ensures |LENGTH_BASES| == |LENGTH_EXTRA| == 29 && |DIST_BASES| == |DIST_EXTRA| == 30
    ensures forall d :: 0 <= d < 30 ==> DIST_BASES[d] >= 1
  {
  }

  ghost function TokenBits(c: Coding, t: Token, rest: seq<Bit>): seq<Bit>
    requires TokenOk(c, t)
  {
    match t
    case Literal(b) => Word(c.lit, b) + rest
    case Match(l, le, d, de) =>
      Word(c.lit, 257 + l) + (LsbBits(le, LENGTH_EXTRA[l]) + (Word(c.dist, d) + (LsbBits(de, DIST_EXTRA[d]) + rest)))
  }

  /** What a token appends; a distance beyond the start is an error. */
  function Apply(output: seq<Byte>, t: Token): Option<seq<Byte>> {
    match t
    case Literal(b) => Some(output + [b])
    case Match(l, le, d, de) =>
      if l >= 29 || d >= 30 then None
      else
        var distance := DIST_BASES[d] + de;
        if distance == 0 || distance > |output| then None
        else Some(CopyBack(output, distance, LENGTH_BASES[l] + le))
  }

  ghost predicate TokensOk(c: Coding, ts: seq<Token>) {
    forall i :: 0 <= i < |ts| ==> TokenOk(c, ts[i])
  }

  /** The tokens from `i` on, and the end of the block. */
  ghost function TokensFrom(c: Coding, ts: seq<Token>, i: nat, rest: seq<Bit>): seq<Bit>
    requires TokensOk(c, ts) && HasWord(c.lit, 256)
    decreases |ts| - i
  {
    if i >= |ts| then Word(c.lit, 256) + rest
    else TokenBits(c, ts[i], TokensFrom(c, ts, i + 1, rest))
  }

  function ApplyFrom(output: seq<Byte>, ts: seq<Token>, i: nat): Option<seq<Byte>>
    decreases |ts| - i
  {
    if i >= |ts| then Some(output)
    else
      match Apply(output, ts[i])
      case None => None
      case Some(next) => ApplyFrom(next, ts, i + 1)
  }

  method CopyMatch(output0: seq<Byte>, distance: nat, length: nat) returns (output: seq<Byte>)
    requires 1 <= distance <= |output0|
    ensures output == CopyBack(output0, distance, length)
  {
    hide CopyBack;
    output := output0;
    var start := |output| - distance;
    NothingCopied(output0, distance);
    var i := 0;
    while i < length
      invariant i <= length && output == CopyBack(output0, distance, i)
    {
      CopyRepeats(output0, distance, i, Rem(i, distance));
      OneMoreCopied(output0, distance, i);
      var idx := start + Rem(i, distance);
      output := output + [output[idx]];
      i := i + 1;
    }
  }

  lemma NothingCopied(output: seq<Byte>, d: nat)
    requires 1 <= d <= |output|
    ensures CopyBack(output, d, 0) == output
  {
  }

  /** The next byte of an overlapping copy, by its place in the repeated part. */
  lemma OneMoreCopied(output: seq<Byte>, d: nat, i: nat)
    requires 1 <= d <= |output|
    ensures Rem(i, d) < d && |output| - d + Rem(i, d) < |CopyBack(output, d, i)|
    ensures CopyBack(output, d, i + 1) == CopyBack(output, d, i) + [CopyBack(output, d, i)[|output| - d + Rem(i, d)]]
  {
    hide Rem;
    CopyRepeats(output, d, i, Rem(i, d));
    RemSmall(Rem(i, d), d);
    LastOf(output, d, i);
  }

  /** The byte the next step of a copy takes. */
  lemma LastOf(output: seq<Byte>, d: nat, i: nat)
    requires 1 <= d <= |output|
    ensures var r := CopyBack(output, d, i); r[|r| - d] == output[|output| - d + Rem(i, d)]
  {
    CopyRepeats(output, d, i, i);
  }

  // ----- the fixed codes -----

  function FixedLength(s: nat): nat {
    if s < 144 then 8 else if s < 256 then 9 else if s < 280 then 7 else 8
  }

  /** The code lengths of section 3.2.6. */
  function FixedLit(): (r: seq<nat>)
    ensures |r| == 288 && forall s :: 0 <= s < 288 ==> r[s] == FixedLength(s)
  {
    seq(288, s requires 0 <= s < 288 => FixedLength(s))
  }

  function FixedDist(): (r: seq<nat>)
    ensures |r| == 32 && forall s :: 0 <= s < 32 ==> r[s] == 5
  {
    seq(32, _ => 5)
  }

  function Within(n: nat, from: nat, to: nat): nat
    requires from <= to
  {
    if n < from then 0 else if n < to then n - from else to - from
  }

  lemma {:induction false} FixedCounts(n: nat)
    requires n <= 288
    ensures Count(FixedLit(), 7, n) == Within(n, 256, 280)
    ensures Count(FixedLit(), 8, n) == Within(n, 0, 144) + Within(n, 280, 288)
    ensures Count(FixedLit(), 9, n) == Within(n, 144, 256)
    ensures forall len :: 0 <= len < 7 ==> Count(FixedLit(), len, n) == 0
    decreases n
  {
    if n > 0 {
      FixedCounts(n - 1);
    }
  }

  lemma FixedFirst()
    ensures FirstCode(FixedLit(), 7) == 0 && FirstCode(FixedLit(), 8) == 48 && FirstCode(FixedLit(), 9) == 400
  {
    FixedCounts(288);
    FixedShort(6);
  }

  lemma {:induction false} FixedShort(len: nat)
    requires len <= 6
    ensures FirstCode(FixedLit(), len) == 0
    decreases len
  {
    FixedCounts(288);
    if len > 0 {
      FixedShort(len - 1);
    }
  }

  /** The canonical codes for the fixed lengths, in closed form. */
  lemma FixedCode(s: nat)
    requires s < 288
    ensures CodeOf(FixedLit(), s) == if s < 144 then 48 + s else if s < 256 then 400 + (s - 144)
                                     else if s < 280 then s - 256 else 192 + (s - 280)
  {
    FixedFirst();
    FixedCounts(s);
  }

  lemma {:induction false} FixedUsed(n: nat)
    requires n <= 288
    ensures Used(FixedLit(), 9, 10, n)
         == 2 * Within(n, 0, 144) + Within(n, 144, 256) + 4 * Within(n, 256, 280) + 2 * Within(n, 280, 288)
    decreases n
  {
    if n > 0 {
      FixedUsed(n - 1);
      assert Pow2(0) == 1 && Pow2(1) == 2 && Pow2(2) == 4;
    }
  }

  lemma FixedKraft()
    ensures Kraft(FixedLit()) && Kraft(FixedDist())
  {
    var m := MaxLen(FixedLit());
    assert FixedLit()[200] == 9;
    assert m == 9;
    FixedUsed(288);
    assert Pow2(9) == 512;
    assert Pow2(5) == 32;
    UniformKraft(FixedDist(), 5);
  }

  lemma FixedDistWord(d: nat)
    requires d < 32
    ensures Word(FixedDist(), d) == ToBits(d, 5) && d < Pow2(5)
  {
    UniformCode(FixedDist(), 5, d);
    assert Pow2(5) == 32;
  }

  /** Bits of a code, first bit highest. */
  method GetBitsRev(data: seq<Byte>, bitPos0: nat, n: nat, ghost on: bool, ghost w: seq<Bit>, ghost rest: seq<Bit>)
      returns (r: Option<nat>, bitPos: nat)
    requires on ==> |w| == n && Ahead(data, bitPos0, w + rest)
    ensures r.Some? ==> bitPos == bitPos0 + n && (n > 0 ==> bitPos <= 8 * |data|)
    ensures on ==> r == Some(FromBits(w)) && Ahead(data, bitPos, rest)
  {
    hide ByteBits, FromBits, BitOf;
    if on {
      Advance(data, bitPos0, w, n, rest);
    }
    var result: nat := 0;
    bitPos := bitPos0;
    NoFromBits();
    assert w[..0] == [];
    var i: nat := 0;
    while i < n
      invariant i <= n && bitPos == bitPos0 + i && (i > 0 ==> bitPos <= 8 * |data|)
      invariant on ==> result == FromBits(w[..i])
    {
      if bitPos / 8 >= |data| {
        return None, bitPos;
      }
      ByteBitAt(data, bitPos);
      var bit := BitOf(data[bitPos / 8], bitPos % 8);
      if on {
        WordBit(data, bitPos0, w, i + 1, bit);
      }
      result := 2 * result + bit;
      bitPos := bitPos + 1;
      i := i + 1;
    }
    assert on ==> w[..i] == w;
    return Some(result), bitPos;
  }

  /** The parts of a fixed codeword that the decoder looks at one after another. */
  lemma FixedParts(s: nat)
    requires s < 288
    ensures var w, c := Word(FixedLit(), s), CodeOf(FixedLit(), s);
      && (|w| == 7 ==> FromBits(w) == c)
      && (|w| == 8 ==> FromBits(w[..7]) == c / 2 && FromBits(w[7..]) == c % 2)
      && (|w| == 9 ==> FromBits(w[..7]) == c / 4 && FromBits(w[7..8]) == c / 2 % 2 && FromBits(w[8..]) == c % 2)
  {
    hide CodeOf;
    FixedCode(s);
    assert Pow2(4) == 16;
    assert Pow2(7) == 128 && Pow2(8) == 256 && Pow2(9) == 512;
    var w, c := Word(FixedLit(), s), CodeOf(FixedLit(), s);
    if |w| == 7 {
      BitsRoundTrip(c, 7);
    } else if |w| == 8 {
      BitsRoundTrip(c / 2, 7);
      assert w[..7] == ToBits(c / 2, 7) && w[7..] == [c % 2];
      OneBitNumber(c % 2);
    } else {
      BitsRoundTrip(c / 2 / 2, 7);
      assert w[..8] == ToBits(c / 2, 8) && w[8..] == [c % 2];
      assert w[..7] == w[..8][..7] && w[7..8] == w[..8][7..] == [c / 2 % 2];
      OneBitNumber(c % 2);
      OneBitNumber(c / 2 % 2);
    }
  }

  lemma OneBitNumber(b: Bit)
    ensures FromBits([b]) == b
  {
    assert [b][..0] == [];
  }

  /** A symbol in the fixed code: 7, 8 or 9 bits, told apart by their values. */
  method ReadFixed(data: seq<Byte>, bitPos0: nat, ghost on: bool, ghost s: nat, ghost rest: seq<Bit>)
      returns (r: Option<nat>, bitPos: nat)
    requires on ==> s < 288 && Ahead(data, bitPos0, Word(FixedLit(), s) + rest)
    ensures r.Some? ==> bitPos0 < bitPos <= 8 * |data|
    ensures on ==> r == Some(s) && Ahead(data, bitPos, rest)
  {
    hide Ahead, FromBits, ToBits, CodeOf;
    ghost var w := if on then Word(FixedLit(), s) else [];
    ghost var w7, w8, w9, after7, after8 := w, w, w, rest, rest;
    if on {
      FixedCode(s);
      FixedParts(s);
      if |w| > 7 {
        w7, w8, after7 := w[..7], w[7..], w[7..] + rest;
        assert w == w7 + w8;
        Assoc(w7, w8, rest);
      }
      if |w| > 8 {
        w8, w9, after8 := w[7..8], w[8..], w[8..] + rest;
        assert w[7..] == w8 + w9;
        Assoc(w8, w9, rest);
      }
    }
    var code: Option<nat>;
    code, bitPos := GetBitsRev(data, bitPos0, 7, on, w7, after7);
    if code.None? {
      return None, bitPos;
    }
    if code.value <= 23 {
      return Some(code.value + 256), bitPos;
    }
    var bit: Option<nat>;
    bit, bitPos := GetBitsRev(data, bitPos, 1, on, w8, after8);
    if bit.None? {
      return None, bitPos;
    }
    var c := 2 * code.value + bit.value;
    if c <= 191 {
      return Some(c - 48), bitPos;
    } else if c <= 199 {
      return Some(c - 192 + 280), bitPos;
    }
    bit, bitPos := GetBitsRev(data, bitPos, 1, on, w9, rest);
    if bit.None? {
      return None, bitPos;
    }
    c := 2 * c + bit.value;
    return Some(c - 400 + 144), bitPos;
  }

  // ----- one compressed block -----

  /** The fixed codes, or the trees a dynamic block has described. */
  datatype Mode = FixedCodes | Trees(lit: Tree, dist: Tree)

  ghost predicate ModeFor(mode: Mode, c: Coding) {
    match mode
    case FixedCodes => c == Coding(FixedLit(), FixedDist())
    case Trees(lit, dist) => TreeOf(lit, c.lit) && TreeOf(dist, c.dist)
  }

  method ReadLit(data: seq<Byte>, bitPos0: nat, mode: Mode, ghost c: Coding, ghost on: bool, ghost s: nat,
      ghost rest: seq<Bit>)
      returns (r: Option<nat>, bitPos: nat)
    requires on ==> ModeFor(mode, c) && HasWord(c.lit, s) && Ahead(data, bitPos0, Word(c.lit, s) + rest)
    ensures r.Some? ==> bitPos0 < bitPos <= 8 * |data|
    ensures on ==> r == Some(s) && Ahead(data, bitPos, rest)
  {
    hide Ahead, Word, TreeOf, Kraft;
    if mode.FixedCodes? {
      r, bitPos := ReadFixed(data, bitPos0, on, s, rest);
    } else {
      r, bitPos := DecodeHuffman(data, bitPos0, mode.lit, c.lit, on, s, rest);
    }
  }

  method ReadDist(data: seq<Byte>, bitPos0: nat, mode: Mode, ghost c: Coding, ghost on: bool, ghost s: nat,
      ghost rest: seq<Bit>)
      returns (r: Option<nat>, bitPos: nat)
    requires on ==> ModeFor(mode, c) && HasWord(c.dist, s) && Ahead(data, bitPos0, Word(c.dist, s) + rest)
    ensures r.Some? ==> bitPos0 < bitPos <= 8 * |data|
    ensures on ==> r == Some(s) && Ahead(data, bitPos, rest)
  {
    hide Ahead, Word, TreeOf, Kraft;
    if mode.FixedCodes? {
      if on {
        FixedDistWord(s);
        BitsRoundTrip(s, 5);
      }
      r, bitPos := GetBitsRev(data, bitPos0, 5, on, if on then Word(c.dist, s) else [], rest);
    } else {
      r, bitPos := DecodeHuffman(data, bitPos0, mode.dist, c.dist, on, s, rest);
    }
  }

  /** A length or distance: base plus extra bits. */
  method ReadMatch(data: seq<Byte>, bitPos0: nat, mode: Mode, symbol: nat, output: seq<Byte>,
                   ghost c: Coding, ghost on: bool, ghost t: Token, ghost rest: seq<Bit>)
      returns (r: Option<seq<Byte>>, bitPos: nat)
    requires symbol >= 257
    requires on ==> ModeFor(mode, c) && TokenOk(c, t) && t.Match? && symbol == 257 + t.len
                    && Ahead(data, bitPos0, LsbBits(t.lenExtra, LENGTH_EXTRA[t.len])
                             + (Word(c.dist, t.dist) + (LsbBits(t.distExtra, DIST_EXTRA[t.dist]) + rest)))
    ensures r.Some? ==> bitPos0 <= bitPos <= 8 * |data|
    ensures on ==> r == Apply(output, t) && (r.Some? ==> Ahead(data, bitPos, rest))
  {
    hide Ahead, Word, LENGTH_BASES, LENGTH_EXTRA, DIST_BASES, DIST_EXTRA, ModeFor, Kraft, LsbBits, Pow2;
    TablesLong();
    bitPos := bitPos0;
    var k := symbol - 257;
    if k >= 29 {
      return None, bitPos;
    }
    ghost var le, d, de, afterDist, afterLen := 0, 0, 0, rest, rest;
    if on {
      le, d, de := t.lenExtra, t.dist, t.distExtra;
      afterDist := LsbBits(de, DIST_EXTRA[d]) + rest;
      afterLen := Word(c.dist, d) + afterDist;
    }
    var extra: Option<nat>;
    extra, bitPos := ReadField(data, bitPos, LENGTH_EXTRA[k], on, le, afterLen);
    if extra.None? {
      return None, bitPos;
    }
    var length := LENGTH_BASES[k] + extra.value;
    var code: Option<nat>;
    code, bitPos := ReadDist(data, bitPos, mode, c, on, d, afterDist);
    if code.None? || code.value >= 30 {
      return None, bitPos;
    }
    extra, bitPos := ReadField(data, bitPos, DIST_EXTRA[code.value], on, de, rest);
    if extra.None? {
      return None, bitPos;
    }
    var distance := DIST_BASES[code.value] + extra.value;
    if distance == 0 || distance > |output| {
      return None, bitPos;
    }
    var copied := CopyMatch(output, distance, length);
    return Some(copied), bitPos;
  }

  /** The bits of token `i`, of what follows it, or of the end of the block. */
  ghost function SymbolAt(ts: seq<Token>, i: nat): nat {
    if i >= |ts| then 256
    else
      match ts[i]
      case Literal(b) => b
      case Match(l, _, _, _) => 257 + l
  }

  ghost function AfterSymbol(c: Coding, ts: seq<Token>, i: nat, rest: seq<Bit>): seq<Bit>
    requires TokensOk(c, ts) && HasWord(c.lit, 256)
  {
    if i >= |ts| then rest
    else
      match ts[i]
      case Literal(b) => TokensFrom(c, ts, i + 1, rest)
      case Match(l, le, d, de) =>
        assert TokenOk(c, ts[i]);
        LsbBits(le, LENGTH_EXTRA[l]) + (Word(c.dist, d) + (LsbBits(de, DIST_EXTRA[d]) + TokensFrom(c, ts, i + 1, rest)))
  }

  lemma SymbolFirst(c: Coding, ts: seq<Token>, i: nat, rest: seq<Bit>)
    requires TokensOk(c, ts) && HasWord(c.lit, 256)
    ensures HasWord(c.lit, SymbolAt(ts, i))
    ensures TokensFrom(c, ts, i, rest) == Word(c.lit, SymbolAt(ts, i)) + AfterSymbol(c, ts, i, rest)
  {
    hide Word, HasWord, LsbBits, LENGTH_EXTRA, DIST_EXTRA;
    if i < |ts| {
      assert TokenOk(c, ts[i]);
    }
  }

  /** The tokens of a block up to its end. The result is what applying them gives. */
  method InflateTokens(data: seq<Byte>, bitPos0: nat, output0: seq<Byte>, mode: Mode,
                       ghost c: Coding, ghost ts: seq<Token>, ghost on: bool, ghost rest: seq<Bit>)
      returns (r: Option<seq<Byte>>, bitPos: nat)
    requires on ==> ModeFor(mode, c) && TokensOk(c, ts) && HasWord(c.lit, 256)
                    && Ahead(data, bitPos0, TokensFrom(c, ts, 0, rest))
    ensures r.Some? ==> bitPos0 < bitPos <= 8 * |data|
    ensures on ==> r == ApplyFrom(output0, ts, 0) && (r.Some? ==> Ahead(data, bitPos, rest))
  {
    hide Ahead, Word, ModeFor, HasWord, Apply, LsbBits, LENGTH_EXTRA, DIST_EXTRA, TokensFrom, Pow2;
    var output := output0;
    bitPos := bitPos0;
    ghost var i := 0;
    while true
      invariant bitPos0 <= bitPos && (bitPos == bitPos0 || bitPos <= 8 * |data|)
      invariant on ==> i <= |ts| && Ahead(data, bitPos, TokensFrom(c, ts, i, rest))
      invariant on ==> ApplyFrom(output, ts, i) == ApplyFrom(output0, ts, 0)
      decreases 8 * |data| - bitPos
    {
      if on {
        SymbolFirst(c, ts, i, rest);
      }
      var symbol: Option<nat>;
      symbol, bitPos := ReadLit(data, bitPos, mode, c, on, SymbolAt(ts, i),
          if on then AfterSymbol(c, ts, i, rest) else rest);
      if symbol.None? {
        return None, bitPos;
      }
      if symbol.value < 256 {
        if on {
          assert Apply(output, ts[i]) == Some(output + [symbol.value]) by { LiteralApplies(output, ts[i]); }
        }
        output := output + [symbol.value];
      } else if symbol.value == 256 {
        return Some(output), bitPos;
      } else {
        if on {
          assert TokenOk(c, ts[i]);
        }
        var next: Option<seq<Byte>>;
        next, bitPos := ReadMatch(data, bitPos, mode, symbol.value, output, c, on,
                                  if on then ts[i] else Literal(0),
                                      if on then TokensFrom(c, ts, i + 1, rest) else rest);
        if next.None? {
          return None, bitPos;
        }
        output := next.value;
      }
      i := i + 1;
    }
  }

  lemma LiteralApplies(output: seq<Byte>, t: Token)
    requires t.Literal?
    ensures Apply(output, t) == Some(output + [t.b])
  {
  }

  // ----- the header of a dynamic block -----

  const ORDER: seq<nat> := [16, 17, 18, 0, 8, 7, 9, 6, 10, 5, 11, 4, 12, 3, 13, 2, 14, 1, 15]

  /** Code lengths, run-length coded. */
  datatype LenToken = Len(v: nat) | Again(extra: nat) | ZerosShort(extra: nat) | ZerosLong(extra: nat)

  function LenSymbol(t: LenToken): nat {
    match t
    case Len(v) => v
    case Again(_) => 16
    case ZerosShort(_) => 17
    case ZerosLong(_) => 18
  }

  /** The width and the value of the extra bits. */
  function LenExtra(t: LenToken): (nat, nat) {
    match t
    case Len(_) => (0, 0)
    case Again(e) => (2, e)
    case ZerosShort(e) => (3, e)
    case ZerosLong(e) => (7, e)
  }

  function Extend(lengths: seq<nat>, t: LenToken): seq<nat> {
    match t
    case Len(v) => lengths + [v]
    case Again(e) => lengths + Rep<nat>(if lengths == [] then 0 else lengths[|lengths| - 1], 3 + e)
    case ZerosShort(e) => lengths + Rep<nat>(0, 3 + e)
    case ZerosLong(e) => lengths + Rep<nat>(0, 11 + e)
  }

  /** The code lengths after the first `n` tokens. */
  function ExtendTo(ts: seq<LenToken>, n: nat): seq<nat>
    requires n <= |ts|
  {
    if n == 0 then [] else Extend(ExtendTo(ts, n - 1), ts[n - 1])
  }

  datatype Header = Header(hlit: nat, hdist: nat, hclen: nat, cl: seq<nat>, ts: seq<LenToken>)

  ghost predicate LenTokenOk(cl: seq<nat>, t: LenToken) {
    HasWord(cl, LenSymbol(t)) && (t.Len? ==> t.v < 16) && LenExtra(t).1 < Pow2(LenExtra(t).0)
  }

  ghost predicate HeaderOk(h: Header) {
    && 257 <= h.hlit < 289 && 1 <= h.hdist < 33 && 4 <= h.hclen < 20
    && |h.cl| == 19 && (forall k :: 0 <= k < 19 ==> h.cl[k] < 8)
    && (forall i :: h.hclen <= i < 19 ==> ClAt(h.cl, i) == 0)
    && (forall i :: 0 <= i < |h.ts| ==> LenTokenOk(h.cl, h.ts[i]) && |ExtendTo(h.ts, i)| < h.hlit + h.hdist)
    && |ExtendTo(h.ts, |h.ts|)| == h.hlit + h.hdist
  }

  ghost function LenTokensFrom(h: Header, i: nat, rest: seq<Bit>): seq<Bit>
    requires HeaderOk(h)
    decreases |h.ts| - i
  {
    if i >= |h.ts| then rest
    else
      assert LenTokenOk(h.cl, h.ts[i]);
      Word(h.cl, LenSymbol(h.ts[i]))
          + (LsbBits(LenExtra(h.ts[i]).1, LenExtra(h.ts[i]).0) + LenTokensFrom(h, i + 1, rest))
  }

  ghost function ClFrom(h: Header, i: nat, rest: seq<Bit>): seq<Bit>
    requires HeaderOk(h)
    decreases 19 - i
  {
    if i >= h.hclen || i >= 19 then LenTokensFrom(h, 0, rest)
    else LsbBits(ClAt(h.cl, i), 3) + ClFrom(h, i + 1, rest)
  }

  /** The i-th code length to be sent. */
  function ClAt(cl: seq<nat>, i: nat): nat
    requires |cl| == 19 && i < 19
  {
    OrderIs();
    cl[ORDER[i]]
  }

  ghost function HeaderBits(h: Header, rest: seq<Bit>): seq<Bit>
    requires HeaderOk(h)
  {
    LsbBits(h.hlit - 257, 5) + (LsbBits(h.hdist - 1, 5) + (LsbBits(h.hclen - 4, 4) + ClFrom(h, 0, rest)))
  }

  ghost function CodingOf(h: Header): Coding
    requires HeaderOk(h)
  {
    Coding(ExtendTo(h.ts, |h.ts|)[..h.hlit], ExtendTo(h.ts, |h.ts|)[h.hlit..])
  }

  lemma OrderIs()
    ensures |ORDER| == 19 && forall i :: 0 <= i < 19 ==> ORDER[i] < 19
    ensures forall i, j :: 0 <= i < j < 19 ==> ORDER[i] != ORDER[j]
  {
  }

  /** The lengths are sent from the middle outwards: the three repetitions and 0, then 8 and upwards
      in turn with 7 and downwards. */
  lemma OrderFolds(i: nat)
    ensures ORDER[..4] == [16, 17, 18, 0]
    ensures i <= 7 ==> ORDER[4 + 2 * i] == 8 + i
    ensures i <= 6 ==> ORDER[5 + 2 * i] == 7 - i
  {
    assert i <= 7 ==> i == 0 || i == 1 || i == 2 || i == 3 || i == 4 || i == 5 || i == 6 || i == 7;
  }

  lemma OrderAll(k: nat) returns (i: nat)
    requires k < 19
    ensures i < 19 && ORDER[i] == k
  {
    var at := [3, 17, 15, 13, 11, 9, 7, 5, 4, 6, 8, 10, 12, 14, 16, 18, 0, 1, 2];
    i := at[k];
  }

  /** The first i lengths of `full` have been read. */
  ghost predicate ClRead(cl: seq<nat>, full: seq<nat>, i: nat)
    requires |cl| == |full| == 19
  {
    forall j :: 0 <= j < 19 ==> ClAt(cl, j) == if j < i then ClAt(full, j) else 0
  }

  lemma ClReadNone(cl: seq<nat>, full: seq<nat>)
    requires |full| == 19 && cl == Rep<nat>(0, 19)
    ensures ClRead(cl, full, 0)
  {
  }

  lemma ClReadNext(cl: seq<nat>, full: seq<nat>, i: nat, at: nat)
    requires |cl| == |full| == 19 && i < 19 && at == ORDER[i] < 19
    requires ClRead(cl, full, i)
    ensures ClRead(cl[at := ClAt(full, i)], full, i + 1)
  {
    OrderIs();
    hide ORDER;
    var next := cl[at := ClAt(full, i)];
    forall j | 0 <= j < 19 ensures ClAt(next, j) == if j < i + 1 then ClAt(full, j) else 0 {
      assert ClAt(cl, j) == if j < i then ClAt(full, j) else 0;
      if j < i {
        assert ORDER[j] != ORDER[i];
      } else if i < j {
        assert ORDER[i] != ORDER[j];
      }
    }
  }

  lemma ClReadAll(cl: seq<nat>, h: Header)
    requires HeaderOk(h) && |cl| == 19 && ClRead(cl, h.cl, h.hclen)
    ensures cl == h.cl
  {
    OrderIs();
    hide ORDER, ExtendTo, LenTokenOk;
    forall k | 0 <= k < 19 ensures cl[k] == h.cl[k] {
      var j := OrderAll(k);
      assert ClAt(cl, j) == ClAt(h.cl, j);
    }
  }

  /** The lengths of the code length code, three bits each, in their own order. */
  method ReadClLengths(data: seq<Byte>, bitPos0: nat, hclen: nat, ghost on: bool, ghost h: Header, ghost rest: seq<Bit>)
      returns (r: Option<seq<nat>>, bitPos: nat)
    requires hclen < 20
    requires on ==> HeaderOk(h) && hclen == h.hclen && Ahead(data, bitPos0, ClFrom(h, 0, rest))
    ensures r.Some? ==> |r.value| == 19 && bitPos0 <= bitPos
    ensures on ==> r == Some(h.cl) && Ahead(data, bitPos, LenTokensFrom(h, 0, rest))
  {
    hide Ahead, LsbBits, LenTokensFrom, ExtendTo, LenTokenOk, ClRead;
    OrderIs();
    hide ORDER;
    var cl: seq<nat> := Rep<nat>(0, 19);
    if on {
      ClReadNone(cl, h.cl);
    }
    bitPos := bitPos0;
    var i: nat := 0;
    assert Pow2(3) == 8;
    while i < hclen
      invariant i <= hclen && |cl| == 19 && bitPos0 <= bitPos
      invariant on ==> Ahead(data, bitPos, ClFrom(h, i, rest)) && ClRead(cl, h.cl, i)
    {
      var v: Option<nat>;
      v, bitPos := ReadField(data, bitPos, 3, on, if on then ClAt(h.cl, i) else 0,
          if on then ClFrom(h, i + 1, rest) else rest);
      if v.None? {
        return None, bitPos;
      }
      if on {
        ClReadNext(cl, h.cl, i, ORDER[i]);
      }
      cl := cl[ORDER[i] := v.value];
      i := i + 1;
    }
    if on {
      ClReadAll(cl, h);
    }
    return Some(cl), bitPos;
  }

  lemma Extending(h: Header, i: nat)
    requires HeaderOk(h) && i < |h.ts|
    ensures LenTokenOk(h.cl, h.ts[i])
    ensures ExtendTo(h.ts, i + 1) == Extend(ExtendTo(h.ts, i), h.ts[i])
    ensures |ExtendTo(h.ts, i)| < h.hlit + h.hdist && |ExtendTo(h.ts, i + 1)| <= h.hlit + h.hdist
  {
    if i + 1 < |h.ts| {
      assert LenTokenOk(h.cl, h.ts[i + 1]);
    }
  }

  /** A repeated code length, of at most `total` lengths in all. */
  method ReadRepeat(data: seq<Byte>, bitPos0: nat, symbol: nat, lengths: seq<nat>, total: nat, ghost on: bool,
                    ghost t: LenToken, ghost rest: seq<Bit>) returns (r: Option<seq<nat>>, bitPos: nat)
    requires 16 <= symbol <= 18
    requires on ==> symbol == LenSymbol(t) && !t.Len? && LenExtra(t).1 < Pow2(LenExtra(t).0)
                    && Ahead(data, bitPos0, LsbBits(LenExtra(t).1, LenExtra(t).0) + rest)
    ensures r.Some? ==> |lengths| < |r.value| <= total && bitPos0 <= bitPos
    ensures on && |Extend(lengths, t)| <= total ==> r == Some(Extend(lengths, t)) && Ahead(data, bitPos, rest)
  {
    hide Ahead, LsbBits, Pow2;
    var width := if symbol == 16 then 2 else if symbol == 17 then 3 else 7;
    var extra: Option<nat>;
    extra, bitPos := ReadField(data, bitPos0, width, on, if on then LenExtra(t).1 else 0, rest);
    if extra.None? {
      return None, bitPos;
    }
    var value := if symbol == 16 && lengths != [] then lengths[|lengths| - 1] else 0;
    var times := extra.value + (if symbol == 18 then 11 else 3);
    if |lengths| + times > total {
      return None, bitPos;
    }
    return Some(lengths + Rep<nat>(value, times)), bitPos;
  }

  /** The code lengths of both trees. */
  method ReadLengths(data: seq<Byte>, bitPos0: nat, total: nat, tree: Tree, ghost on: bool, ghost h: Header,
      ghost rest: seq<Bit>)
      returns (r: Option<seq<nat>>, bitPos: nat)
    requires on ==> HeaderOk(h) && total == h.hlit + h.hdist && TreeOf(tree, h.cl)
                    && Ahead(data, bitPos0, LenTokensFrom(h, 0, rest))
    ensures r.Some? ==> |r.value| == total && bitPos0 <= bitPos
    ensures on ==> r == Some(ExtendTo(h.ts, |h.ts|)) && Ahead(data, bitPos, rest)
  {
    hide Ahead, LsbBits, Word, HasWord, TreeOf, Pow2, HeaderOk, LenTokensFrom, LenTokenOk;
    var lengths: seq<nat> := [];
    bitPos := bitPos0;
    ghost var i := 0;
    while |lengths| < total
      invariant |lengths| <= total && bitPos0 <= bitPos
      invariant on ==> i <= |h.ts| && lengths == ExtendTo(h.ts, i) && Ahead(data, bitPos, LenTokensFrom(h, i, rest))
      decreases total - |lengths|
    {
      ghost var sym, n, e, after, next := 0, 0, 0, rest, rest;
      if on {
        NotDone(h, i);
        Extending(h, i);
        sym, n, e := LenSymbol(h.ts[i]), LenExtra(h.ts[i]).0, LenExtra(h.ts[i]).1;
        next := LenTokensFrom(h, i + 1, rest);
        after := LsbBits(e, n) + next;
        LenTokensStep(h, i, rest);
      }
      var symbol: Option<nat>;
      symbol, bitPos := DecodeHuffman(data, bitPos, tree, h.cl, on, sym, after);
      if symbol.None? || symbol.value > 18 {
        return None, bitPos;
      }
      if symbol.value < 16 {
        if on {
          NoExtra(e, n, next);
        }
        lengths := lengths + [symbol.value];
      } else {
        var extended: Option<seq<nat>>;
        extended, bitPos := ReadRepeat(data, bitPos, symbol.value, lengths, total, on,
            if on then h.ts[i] else Len(0), next);
        if extended.None? {
          return None, bitPos;
        }
        lengths := extended.value;
      }
      i := i + 1;
    }
    if on {
      AllRead(h, i, rest);
    }
    return Some(lengths), bitPos;
  }

  lemma NoExtra(e: nat, n: nat, next: seq<Bit>)
    ensures n == 0 ==> LsbBits(e, n) + next == next
  {
  }

  lemma NotDone(h: Header, i: nat)
    requires HeaderOk(h) && i <= |h.ts| && |ExtendTo(h.ts, i)| < h.hlit + h.hdist
    ensures i < |h.ts|
  {
  }

  lemma AllRead(h: Header, i: nat, rest: seq<Bit>)
    requires HeaderOk(h) && i <= |h.ts| && |ExtendTo(h.ts, i)| >= h.hlit + h.hdist
    ensures i == |h.ts| && LenTokensFrom(h, i, rest) == rest
  {
  }

  lemma LenTokensStep(h: Header, i: nat, rest: seq<Bit>)
    requires HeaderOk(h) && i < |h.ts|
    ensures HasWord(h.cl, LenSymbol(h.ts[i])) && LenExtra(h.ts[i]).1 < Pow2(LenExtra(h.ts[i]).0)
    ensures (h.ts[i].Len? ==> h.ts[i].v < 16) && LenSymbol(h.ts[i]) < |h.cl|
    ensures LenTokensFrom(h, i, rest)
         == Word(h.cl, LenSymbol(h.ts[i]))
             + (LsbBits(LenExtra(h.ts[i]).1, LenExtra(h.ts[i]).0) + LenTokensFrom(h, i + 1, rest))
  {
    assert LenTokenOk(h.cl, h.ts[i]);
  }

  /** Header and trees of a dynamic block. */
  method ReadHeader(data: seq<Byte>, bitPos0: nat, ghost on: bool, ghost h: Header, ghost rest: seq<Bit>)
      returns (r: Option<Mode>, bitPos: nat)
    requires on ==> HeaderOk(h) && Ahead(data, bitPos0, HeaderBits(h, rest))
    ensures r.Some? ==> bitPos0 <= bitPos
    ensures on ==> r.Some? && ModeFor(r.value, CodingOf(h)) && Ahead(data, bitPos, rest)
  {
    hide Ahead, LsbBits, TreeOf, ClFrom, LenTokensFrom, ExtendTo;
    ghost var cls, afterDist, afterLit := rest, rest, rest;
    if on {
      cls := ClFrom(h, 0, rest);
      afterDist := LsbBits(h.hclen - 4, 4) + cls;
      afterLit := LsbBits(h.hdist - 1, 5) + afterDist;
    }
    assert Pow2(4) == 16 && Pow2(5) == 32;
    var a, b, n: Option<nat>;
    a, bitPos := ReadField(data, bitPos0, 5, on, if on then h.hlit - 257 else 0, afterLit);
    if a.None? {
      return None, bitPos;
    }
    b, bitPos := ReadField(data, bitPos, 5, on, if on then h.hdist - 1 else 0, afterDist);
    if b.None? {
      return None, bitPos;
    }
    n, bitPos := ReadField(data, bitPos, 4, on, if on then h.hclen - 4 else 0, cls);
    if n.None? {
      return None, bitPos;
    }
    var hlit, hdist := a.value + 257, b.value + 1;
    var cl: Option<seq<nat>>;
    cl, bitPos := ReadClLengths(data, bitPos, n.value + 4, on, h, rest);
    if cl.None? {
      return None, bitPos;
    }
    var tree := BuildTree(cl.value);
    var lengths: Option<seq<nat>>;
    lengths, bitPos := ReadLengths(data, bitPos, hlit + hdist, tree, on, h, rest);
    if lengths.None? {
      return None, bitPos;
    }
    var lit := BuildTree(lengths.value[..hlit]);
    var dist := BuildTree(lengths.value[hlit..]);
    return Some(Trees(lit, dist)), bitPos;
  }

  // ----- blocks and streams -----

  datatype Block = Stored(pad: seq<Bit>, chunk: seq<Byte>) | Fixed(ts: seq<Token>) | Dynamic(h: Header, ts: seq<Token>)

  /** A block that may stand at this bit position. A stored block is padded to a whole byte. */
  ghost predicate BlockOk(b: Block, at: nat) {
    match b
    case Stored(pad, chunk) => |pad| < 8 && (at + 3 + |pad|) % 8 == 0 && |chunk| < 65536
    case Fixed(ts) => TokensOk(Coding(FixedLit(), FixedDist()), ts)
    case Dynamic(h, ts) => HeaderOk(h) && TokensOk(CodingOf(h), ts) && HasWord(CodingOf(h).lit, 256)
  }

  function TypeOf(b: Block): nat {
    match b
    case Stored(_, _) => 0
    case Fixed(_) => 1
    case Dynamic(_, _) => 2
  }

  function StoredBody(pad: seq<Bit>, n: nat, content: seq<Bit>): seq<Bit>
    requires n < 65536
  {
    pad + (LsbBits(n, 16) + (LsbBits(65535 - n, 16) + content))
  }

  function Start(last: bool, btype: nat, body: seq<Bit>): seq<Bit> {
    LsbBits(if last then 1 else 0, 1) + (LsbBits(btype, 2) + body)
  }

  /** The block after its three header bits. */
  ghost function BodyBits(b: Block, at: nat, rest: seq<Bit>): seq<Bit>
    requires BlockOk(b, at)
  {
    match b
    case Stored(pad, chunk) => StoredBody(pad, |chunk|, ByteBits(chunk) + rest)
    case Fixed(ts) =>
      FixedKraft();
      TokensFrom(Coding(FixedLit(), FixedDist()), ts, 0, rest)
    case Dynamic(h, ts) => HeaderBits(h, TokensFrom(CodingOf(h), ts, 0, rest))
  }

  ghost function BlockBits(b: Block, at: nat, last: bool, rest: seq<Bit>): seq<Bit>
    requires BlockOk(b, at)
  {
    Start(last, TypeOf(b), BodyBits(b, at, rest))
  }

  function ApplyBlock(output: seq<Byte>, b: Block): Option<seq<Byte>> {
    match b
    case Stored(_, chunk) => Some(output + chunk)
    case Fixed(ts) => ApplyFrom(output, ts, 0)
    case Dynamic(_, ts) => ApplyFrom(output, ts, 0)
  }

  /** `bits`, found at bit position `at`, are the blocks from `i` on, the last one marked. */
  ghost predicate IsStream(blocks: seq<Block>, i: nat, at: nat, bits: seq<Bit>, rest: seq<Bit>)
    decreases |blocks| - i
  {
    i < |blocks| && BlockOk(blocks[i], at)
    && if i == |blocks| - 1 then bits == BlockBits(blocks[i], at, true, rest)
       else exists more: seq<Bit> :: |more| <= |bits| && Precedes(blocks[i], at, bits, more)
                                     && IsStream(blocks, i + 1, at + |bits| - |more|, more, rest)
  }

  ghost predicate Precedes(b: Block, at: nat, bits: seq<Bit>, more: seq<Bit>)
    requires BlockOk(b, at)
  {
    bits == BlockBits(b, at, false, more)
  }

  function ApplyBlocks(output: seq<Byte>, blocks: seq<Block>, i: nat): Option<seq<Byte>>
    decreases |blocks| - i
  {
    if i >= |blocks| then Some(output)
    else
      match ApplyBlock(output, blocks[i])
      case None => None
      case Some(next) => ApplyBlocks(next, blocks, i + 1)
  }

  /** Equal bits from a byte boundary on mean equal bytes. */
  lemma SameBytes(data: seq<Byte>, from: nat, chunk: seq<Byte>)
    requires from + |chunk| <= |data| && ByteBits(data)[8 * from..8 * from + 8 * |chunk|] == ByteBits(chunk)
    ensures data[from..from + |chunk|] == chunk
  {
    hide ByteBits;
    forall k | 0 <= k < |chunk| ensures data[from + k] == chunk[k] {
      SameByte(data, from, chunk, k);
    }
  }

  lemma SameByte(data: seq<Byte>, from: nat, chunk: seq<Byte>, k: nat)
    requires from + |chunk| <= |data| && ByteBits(data)[8 * from..8 * from + 8 * |chunk|] == ByteBits(chunk)
    requires k < |chunk|
    ensures data[from + k] == chunk[k]
  {
    hide ByteBits, LsbBits, Pow2;
    var start, at := 8 * from, 8 * k;
    ByteFrom(data, from + k, start + at);
    ByteFrom(chunk, k, at);
    SameSlice(ByteBits(data), start, ByteBits(chunk), at);
    SameLsb(data[from + k], chunk[k]);
  }

  lemma ByteFrom(data: seq<Byte>, i: nat, at: nat)
    requires i < |data| && at == 8 * i
    ensures at + 8 <= |ByteBits(data)| && ByteBits(data)[at..at + 8] == LsbBits(data[i], 8)
  {
    hide ByteBits, LsbBits, Pow2;
    ByteBitsAt(data, i);
  }

  lemma SameLsb(a: Byte, b: Byte)
    ensures LsbBits(a, 8) == LsbBits(b, 8) ==> a == b
  {
    Pow2Eight();
    LsbRoundTrip(a, 8);
    LsbRoundTrip(b, 8);
  }

  lemma SameSlice(x: seq<Bit>, from: nat, y: seq<Bit>, k: nat)
    requires from + |y| <= |x| && x[from..from + |y|] == y && k + 8 <= |y|
    ensures x[from + k..from + k + 8] == y[k..k + 8]
  {
    SliceSlice(x, from, from + |y|, k, k + 8);
  }

  method InflateStored(data: seq<Byte>, bitPos0: nat, output: seq<Byte>, ghost on: bool, ghost b: Block,
      ghost rest: seq<Bit>)
      returns (r: Option<seq<Byte>>, bitPos: nat)
    requires on ==>
        b.Stored? && bitPos0 >= 3 && BlockOk(b, bitPos0 - 3) && Ahead(data, bitPos0, BodyBits(b, bitPos0 - 3, rest))
    ensures r.Some? ==> bitPos0 <= bitPos <= 8 * |data|
    ensures on ==> r == Some(output + b.chunk) && Ahead(data, bitPos, rest)
  {
    hide LsbBits, ByteBits, Pow2, Ahead, HeaderOk, TokensOk, CodingOf, TokensFrom, HeaderBits;
    ghost var n, content, second := 0, rest, rest;
    if on {
      n, content := |b.chunk|, ByteBits(b.chunk) + rest;
      second := LsbBits(65535 - n, 16) + content;
      Advance(data, bitPos0, b.pad, |b.pad|, LsbBits(n, 16) + second);
      Aligned(bitPos0, |b.pad|);
    }
    bitPos := (bitPos0 + 7) / 8 * 8;
    Pow2Eight();
    var len, nlen: Option<nat>;
    len, bitPos := ReadField(data, bitPos, 16, on, n, second);
    if len.None? {
      return None, bitPos;
    }
    nlen, bitPos := ReadField(data, bitPos, 16, on, if on then 65535 - n else 0, content);
    if nlen.None? || nlen.value != 65535 - len.value {
      return None, bitPos;
    }
    var bytePos := bitPos / 8;
    if on {
      assert 8 * bytePos == bitPos && |ByteBits(b.chunk)| == 8 * n;
      Advance(data, bitPos, ByteBits(b.chunk), 8 * n, rest);
      SameBytes(data, bytePos, b.chunk);
    }
    if bytePos + len.value > |data| {
      return None, bitPos;
    }
    return Some(output + data[bytePos..bytePos + len.value]), bitPos + len.value * 8;
  }

  lemma Aligned(bitPos: nat, pad: nat)
    requires pad < 8 && (bitPos + pad) % 8 == 0
    ensures (bitPos + 7) / 8 * 8 == bitPos + pad
  {
  }

  method InflateBlock(data: seq<Byte>, bitPos0: nat, btype: nat, output: seq<Byte>, ghost on: bool, ghost b: Block,
                      ghost rest: seq<Bit>) returns (r: Option<seq<Byte>>, bitPos: nat)
    requires on ==> btype == TypeOf(b) && bitPos0 >= 3 && BlockOk(b, bitPos0 - 3)
                    && Ahead(data, bitPos0, BodyBits(b, bitPos0 - 3, rest))
    ensures r.Some? ==> bitPos0 <= bitPos <= 8 * |data|
    ensures on ==> r == ApplyBlock(output, b) && (r.Some? ==> Ahead(data, bitPos, rest))
  {
    hide Ahead, LsbBits, Kraft, TokensFrom, HeaderOk, HeaderBits, ModeFor;
    bitPos := bitPos0;
    if btype == 0 {
      r, bitPos := InflateStored(data, bitPos, output, on, b, rest);
    } else if btype == 1 {
      FixedKraft();
      ghost var c := Coding(FixedLit(), FixedDist());
      FixedMode();
      r, bitPos := InflateTokens(data, bitPos, output, FixedCodes, c, if on then b.ts else [], on, rest);
    } else if btype == 2 {
      var mode: Option<Mode>;
      mode, bitPos := ReadHeader(data, bitPos, on, if on then b.h else NoHeader(),
                                 if on then TokensFrom(CodingOf(b.h), b.ts, 0, rest) else rest);
      if mode.None? {
        return None, bitPos;
      }
      r, bitPos := InflateTokens(data, bitPos, output, mode.value, if on then CodingOf(b.h) else Coding([], []),
                                 if on then b.ts else [], on, rest);
    } else {
      return None, bitPos;
    }
  }

  ghost function NoHeader(): Header {
    Header(0, 0, 0, [], [])
  }

  lemma FixedMode()
    ensures ModeFor(FixedCodes, Coding(FixedLit(), FixedDist()))
  {
  }

  /** The decoder. On every stream of well-formed blocks it gives what the blocks say, or fails
      if a distance reaches before the start. */
  method InflateAll(data: seq<Byte>, ghost blocks: seq<Block>, ghost rest: seq<Bit>) returns (r: Option<seq<Byte>>)
    ensures IsStream(blocks, 0, 0, ByteBits(data), rest) ==> r == ApplyBlocks([], blocks, 0)
    ensures data == [] ==> r == None
  {
    hide LsbBits, ByteBits, BodyBits, BlockOk, Pow2, ApplyBlock, Ahead, IsStream, ApplyBlocks;
    ghost var on := IsStream(blocks, 0, 0, ByteBits(data), rest);
    var output: seq<Byte> := [];
    var bitPos: nat := 0;
    ghost var i := 0;
    ghost var bits := ByteBits(data);
    AheadAll(data);
    while true
      invariant bitPos <= 8 * |data| && (bitPos == 0 ==> output == [])
      invariant on ==> Ahead(data, bitPos, bits) && IsStream(blocks, i, bitPos, bits, rest)
      invariant on ==> ApplyBlocks(output, blocks, i) == ApplyBlocks([], blocks, 0)
      decreases 8 * |data| - bitPos
    {
      ghost var last, more, b := true, rest, Stored([], []);
      if on {
        last, more := NextBlock(blocks, i, bitPos, bits, rest);
        b := blocks[i];
        ApplyStep(output, blocks, i);
      }
      ghost var at := bitPos;
      PowersOfTwo();
      var bfinal, btype: Option<nat>;
      bfinal, bitPos := ReadField(data, bitPos, 1, on, if last then 1 else 0,
                                  if on then LsbBits(TypeOf(b), 2) + BodyBits(b, at, more) else rest);
      if bfinal.None? {
        return None;
      }
      btype, bitPos := ReadField(data, bitPos, 2, on, TypeOf(b), if on then BodyBits(b, at, more) else rest);
      if btype.None? {
        return None;
      }
      var block: Option<seq<Byte>>;
      block, bitPos := InflateBlock(data, bitPos, btype.value, output, on, b, more);
      if block.None? {
        return None;
      }
      output := block.value;
      if bfinal.value != 0 {
        break;
      }
      if on {
        SamePlace(data, at, bits, bitPos, more);
      }
      i, bits := i + 1, more;
    }
    return Some(output);
  }

  lemma AheadAll(data: seq<Byte>)
    ensures Ahead(data, 0, ByteBits(data))
  {
  }

  lemma ApplyStep(output: seq<Byte>, blocks: seq<Block>, i: nat)
    requires i < |blocks|
    ensures ApplyBlocks(output, blocks, i)
         == match ApplyBlock(output, blocks[i])
            case None => None
            case Some(next) => if i == |blocks| - 1 then Some(next) else ApplyBlocks(next, blocks, i + 1)
  {
  }

  lemma PowersOfTwo()
    ensures Pow2(1) == 2 && Pow2(2) == 4
  {
  }

  lemma SamePlace(data: seq<Byte>, at: nat, bits: seq<Bit>, bitPos: nat, more: seq<Bit>)
    requires Ahead(data, at, bits) && Ahead(data, bitPos, more) && |more| <= |bits|
    ensures bitPos == at + |bits| - |more|
  {
    assert |ByteBits(data)[at..]| == |bits| && |ByteBits(data)[bitPos..]| == |more|;
  }

  lemma NextBlock(blocks: seq<Block>, i: nat, at: nat, bits: seq<Bit>, rest: seq<Bit>)
      returns (last: bool, more: seq<Bit>)
    requires IsStream(blocks, i, at, bits, rest)
    ensures i < |blocks| && BlockOk(blocks[i], at) && bits == BlockBits(blocks[i], at, last, more)
    ensures last <==> i == |blocks| - 1
    ensures !last ==> |more| <= |bits| && IsStream(blocks, i + 1, at + |bits| - |more|, more, rest)
    ensures last ==> more == rest
  {
    hide BlockOk, BlockBits;
    last := i == |blocks| - 1;
    more := rest;
    if !last {
      more :| |more| <= |bits| && Precedes(blocks[i], at, bits, more)
          && IsStream(blocks, i + 1, at + |bits| - |more|, more, rest);
    }
  }

  // ----- the stored encoder -----

  function StoredBlocks(data: seq<Byte>): seq<Block>
    decreases |data|
  {
    if |data| <= 65535 then [Stored(Five(), data)]
    else [Stored(Five(), data[..65535])] + StoredBlocks(data[65535..])
  }

  function StoredBytes(data: seq<Byte>): seq<Byte>
    decreases |data|
  {
    if |data| <= 65535 then StoredHeader(|data|, true) + data
    else StoredHeader(65535, false) + data[..65535] + StoredBytes(data[65535..])
  }

  function StoredHeader(n: nat, last: bool): seq<Byte>
    requires n < 65536
  {
    [if last then 1 else 0, n % 256, n / 256, (65535 - n) % 256, (65535 - n) / 256]
  }

  /** Stored blocks of at most 65535 bytes. No data gives no block. */
  method DeflateStored(data: seq<Byte>) returns (output: seq<Byte>)
    ensures output == if data == [] then [] else StoredBytes(data)
  {
    output := [];
    var offset: nat := 0;
    assert data[0..] == data;
    while offset < |data|
      invariant offset <= |data|
      invariant if offset < |data| then output + StoredBytes(data[offset..]) == StoredBytes(data)
                else output == if data == [] then [] else StoredBytes(data)
    {
      var rest := data[offset..];
      var blockSize: nat := if |rest| < 65535 then |rest| else 65535;
      var final := offset + blockSize >= |data|;
      ghost var before := output;
      output := output + StoredHeader(blockSize, final);
      output := output + data[offset..offset + blockSize];
      StoredStep(before, data, offset, blockSize, final);
      offset := offset + blockSize;
    }
  }

  lemma StoredStep(before: seq<Byte>, data: seq<Byte>, offset: nat, n: nat, final: bool)
    requires offset < |data| && n == (if |data| - offset < 65535 then |data| - offset else 65535)
        && final == (offset + n >= |data|)
    ensures var out := before + StoredHeader(n, final) + data[offset..offset + n];
      if final then before + StoredBytes(data[offset..]) == out
      else before + StoredBytes(data[offset..]) == out + StoredBytes(data[offset + n..])
  {
    var rest := data[offset..];
    assert rest[..n] == data[offset..offset + n] && rest[n..] == data[offset + n..];
    if final {
      Assoc(before, StoredHeader(n, true), data[offset..offset + n]);
      assert rest == data[offset..offset + n];
    } else {
      Assoc(before, StoredHeader(n, false), rest[..n]);
      Assoc(before, StoredHeader(n, false) + rest[..n], StoredBytes(rest[n..]));
    }
  }

  /** The five header bytes are the three bits, the padding and the two lengths. */
  lemma StoredHeaderBits(n: nat, last: bool)
    requires n < 65536
    ensures ByteBits(StoredHeader(n, last))
         == LsbBits(if last then 1 else 0, 1) + (LsbBits(0, 2) + (Five() + (LsbBits(n, 16) + LsbBits(65535 - n, 16))))
  {
    hide LsbBits, ByteBits, Pow2;
    var f := if last then 1 else 0;
    var h := StoredHeader(n, last);
    FiveBytes(h[0], h[1], h[2], h[3], h[4]);
    Pow2Eight();
    LsbSplit(n % 256, 8, n / 256, 8);
    LsbSplit((65535 - n) % 256, 8, (65535 - n) / 256, 8);
    FlagBits(f);
    Assoc4(LsbBits(f, 1), LsbBits(0, 2), Five(), LsbBits(n, 16) + LsbBits(65535 - n, 16));
  }

  lemma Assoc4(a: seq<Bit>, b: seq<Bit>, c: seq<Bit>, d: seq<Bit>)
    ensures a + (b + (c + d)) == a + b + c + d
  {
  }

  lemma FlagBits(f: Bit)
    ensures LsbBits(f, 8) == LsbBits(f, 1) + LsbBits(0, 2) + Five()
  {
    hide LsbBits, Five, Pow2;
    PowersOfTwo();
    LsbSplit(f, 1, 0, 7);
    LsbSplit(0, 2, 0, 5);
    FiveZeros();
    Assoc(LsbBits(f, 1), LsbBits(0, 2), Five());
  }

  lemma FiveZeros()
    ensures LsbBits(0, 5) == Five()
  {
    assert LsbBits(0, 2) == [0, 0];
    assert LsbBits(0, 4) == [0, 0, 0, 0];
  }

  lemma TwoMore(s: seq<Byte>, a: Byte, b: Byte)
    ensures ByteBits(s + [a, b]) == ByteBits(s) + (LsbBits(a, 8) + LsbBits(b, 8))
  {
    hide LsbBits, ByteBits;
    SnocBits(s, a);
    SnocBits(s + [a], b);
    assert s + [a] + [b] == s + [a, b];
    Assoc(ByteBits(s), LsbBits(a, 8), LsbBits(b, 8));
  }

  lemma FiveBytes(a: Byte, b: Byte, c: Byte, d: Byte, e: Byte)
    ensures ByteBits([a, b, c, d, e])
        == LsbBits(a, 8) + ((LsbBits(b, 8) + LsbBits(c, 8)) + (LsbBits(d, 8) + LsbBits(e, 8)))
  {
    hide LsbBits, ByteBits;
    OneByte(a);
    TwoMore([a], b, c);
    TwoMore([a, b, c], d, e);
    assert [a] + [b, c] == [a, b, c] && [a, b, c] + [d, e] == [a, b, c, d, e];
    Assoc(LsbBits(a, 8), LsbBits(b, 8) + LsbBits(c, 8), LsbBits(d, 8) + LsbBits(e, 8));
  }

  lemma OneByte(a: Byte)
    ensures ByteBits([a]) == LsbBits(a, 8)
  {
    hide LsbBits;
    NoBytes();
    var s: seq<Byte> := [];
    SnocBits(s, a);
    assert s + [a] == [a];
    assert [] + LsbBits(a, 8) == LsbBits(a, 8);
  }

  lemma NoBytes()
    ensures ByteBits([]) == []
  {
  }

  lemma {:induction false} ShiftStream(b: Block, blocks: seq<Block>, i: nat, at: nat, bits: seq<Bit>, rest: seq<Bit>)
    requires IsStream(blocks, i, at, bits, rest)
    ensures IsStream([b] + blocks, i + 1, at, bits, rest)
    decreases |blocks| - i
  {
    hide BlockOk, BlockBits;
    var last, more := NextBlock(blocks, i, at, bits, rest);
    assert ([b] + blocks)[i + 1] == blocks[i];
    if !last {
      assert Precedes(blocks[i], at, bits, more);
      ShiftStream(b, blocks, i + 1, at + |bits| - |more|, more, rest);
      assert IsStream([b] + blocks, i + 2, at + |bits| - |more|, more, rest);
    }
  }

  function Five(): (r: seq<Bit>)
    ensures |r| == 5
  {
    [0, 0, 0, 0, 0]
  }

  lemma HeaderPlus(n: nat, last: bool, content: seq<Bit>)
    requires n < 65536
    ensures Start(last, 0, StoredBody(Five(), n, content)) == ByteBits(StoredHeader(n, last)) + content
  {
    hide LsbBits, ByteBits, Five, StoredHeader;
    StoredHeaderBits(n, last);
    Regroup5(LsbBits(if last then 1 else 0, 1), LsbBits(0, 2), Five(), LsbBits(n, 16), LsbBits(65535 - n, 16), content);
  }

  lemma StoredOk(pad: seq<Bit>, chunk: seq<Byte>, at: nat)
    requires |pad| == 5 && |chunk| < 65536 && at % 8 == 0
    ensures BlockOk(Stored(pad, chunk), at)
  {
    assert (at + 8) % 8 == 0;
  }

  lemma StoredOne(chunk: seq<Byte>, at: nat, last: bool, more: seq<Bit>)
    requires |chunk| < 65536 && BlockOk(Stored(Five(), chunk), at)
    ensures BlockBits(Stored(Five(), chunk), at, last, more) == ByteBits(StoredHeader(|chunk|, last) + chunk) + more
  {
    hide ByteBits, Five, StoredHeader, Start, StoredBody, BlockOk, BodyBits, BlockBits, LsbBits;
    StoredBits(Five(), chunk, at, last, more);
    HeaderThen(|chunk|, last, ByteBits(chunk), more);
    ByteBitsJoin(StoredHeader(|chunk|, last), chunk);
  }

  lemma HeaderThen(n: nat, last: bool, bits: seq<Bit>, more: seq<Bit>)
    requires n < 65536
    ensures Start(last, 0, StoredBody(Five(), n, bits + more)) == ByteBits(StoredHeader(n, last)) + bits + more
  {
    hide ByteBits, Five, StoredHeader, Start, StoredBody;
    HeaderPlus(n, last, bits + more);
    Assoc(ByteBits(StoredHeader(n, last)), bits, more);
  }

  lemma StoredBits(pad: seq<Bit>, chunk: seq<Byte>, at: nat, last: bool, more: seq<Bit>)
    requires |chunk| < 65536 && BlockOk(Stored(pad, chunk), at)
    ensures BlockBits(Stored(pad, chunk), at, last, more)
        == Start(last, 0, StoredBody(pad, |chunk|, ByteBits(chunk) + more))
  {
    hide ByteBits, Start, StoredBody, BlockOk;
  }

  lemma Regroup5(a: seq<Bit>, b: seq<Bit>, c: seq<Bit>, d: seq<Bit>, e: seq<Bit>, f: seq<Bit>)
    ensures (a + (b + (c + (d + e)))) + f == a + (b + (c + (d + (e + f))))
  {
  }

  lemma {:induction false} ByteBitsJoin(a: seq<Byte>, b: seq<Byte>)
    ensures ByteBits(a + b) == ByteBits(a) + ByteBits(b)
    decreases |b|
  {
    hide LsbBits;
    if b == [] {
      assert a + b == a;
    } else {
      var last := |b| - 1;
      ByteBitsJoin(a, b[..last]);
      SnocBits(a + b[..last], b[last]);
      assert a + b[..last] + [b[last]] == a + b;
      Assoc(ByteBits(a), ByteBits(b[..last]), LsbBits(b[last], 8));
    }
  }

  /** What the stored encoder writes is a stream, and it says the data. */
  lemma {:induction false} StoredIsStream(data: seq<Byte>, at: nat)
    requires at % 8 == 0
    ensures IsStream(StoredBlocks(data), 0, at, ByteBits(StoredBytes(data)), [])
    decreases |data|
  {
    hide BlockOk, BlockBits, ByteBits, IsStream, StoredHeader;
    if |data| <= 65535 {
      StoredOk(Five(), data, at);
      StoredOne(data, at, true, []);
      assert ByteBits(StoredBytes(data)) + [] == ByteBits(StoredBytes(data));
      LastBlock(Stored(Five(), data), at, ByteBits(StoredBytes(data)), []);
    } else {
      var chunk, tail := data[..65535], data[65535..];
      var head := StoredHeader(65535, false) + chunk;
      StoredOk(Five(), chunk, at);
      StoredOne(chunk, at, false, ByteBits(StoredBytes(tail)));
      ByteBitsJoin(head, StoredBytes(tail));
      StoredIsStream(tail, at + 8 * |head|);
      OneBlockMore(Stored(Five(), chunk), StoredBlocks(tail), at, ByteBits(StoredBytes(data)),
          ByteBits(StoredBytes(tail)), []);
    }
  }

  lemma LastBlock(b: Block, at: nat, bits: seq<Bit>, rest: seq<Bit>)
    requires BlockOk(b, at) && bits == BlockBits(b, at, true, rest)
    ensures IsStream([b], 0, at, bits, rest)
  {
  }

  lemma OneBlockMore(b: Block, blocks: seq<Block>, at: nat, bits: seq<Bit>, more: seq<Bit>, rest: seq<Bit>)
    requires BlockOk(b, at) && bits == BlockBits(b, at, false, more) && |more| <= |bits|
    requires IsStream(blocks, 0, at + |bits| - |more|, more, rest)
    ensures IsStream([b] + blocks, 0, at, bits, rest)
  {
    hide BlockOk, BlockBits, IsStream;
    var all, next := [b] + blocks, at + |bits| - |more|;
    NotEmpty(blocks, next, more, rest);
    ShiftStream(b, blocks, 0, next, more, rest);
    Streams(all, at, bits, more, rest);
  }

  lemma NotEmpty(blocks: seq<Block>, at: nat, bits: seq<Bit>, rest: seq<Bit>)
    requires IsStream(blocks, 0, at, bits, rest)
    ensures blocks != []
  {
  }

  lemma Streams(all: seq<Block>, at: nat, bits: seq<Bit>, more: seq<Bit>, rest: seq<Bit>)
    requires |all| > 1 && BlockOk(all[0], at) && Precedes(all[0], at, bits, more) && |more| <= |bits|
    requires IsStream(all, 1, at + |bits| - |more|, more, rest)
    ensures IsStream(all, 0, at, bits, rest)
  {
    hide BlockOk, BlockBits, Precedes;
  }

  lemma {:induction false} StoredSays(data: seq<Byte>, output: seq<Byte>)
    ensures ApplyBlocks(output, StoredBlocks(data), 0) == Some(output + data)
    decreases |data|
  {
    if |data| > 65535 {
      var chunk, tail := data[..65535], data[65535..];
      StoredSays(tail, output + chunk);
      ShiftApply(output + chunk, Stored(Five(), chunk), StoredBlocks(tail), 0);
      assert StoredBlocks(data)[0] == Stored(Five(), chunk);
      assert output + chunk + tail == output + data;
    }
  }

  lemma {:induction false} ShiftApply(output: seq<Byte>, b: Block, blocks: seq<Block>, i: nat)
    ensures ApplyBlocks(output, [b] + blocks, i + 1) == ApplyBlocks(output, blocks, i)
    decreases |blocks| - i
  {
    hide ApplyBlock;
    if i < |blocks| {
      assert ([b] + blocks)[i + 1] == blocks[i];
      var next := ApplyBlock(output, blocks[i]);
      if next.Some? {
        ShiftApply(next.value, b, blocks, i + 1);
      }
    }
  }

  /** Storing and inflating gives the data back, unless there is none: the encoder then writes no
      block at all, and the decoder fails for want of a final one. */
  method StoredRoundTrip(data: seq<Byte>) returns (back: Option<seq<Byte>>)
    ensures back == Some(data) <==> data != []
    ensures data == [] ==> back == None
  {
    hide IsStream, ApplyBlocks, StoredBlocks, StoredBytes, ByteBits;
    var output := DeflateStored(data);
    StoredIsStream(data, 0);
    StoredSays(data, []);
    assert [] + data == data;
    back := InflateAll(output, StoredBlocks(data), []);
  }
}
