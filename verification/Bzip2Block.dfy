/** One bzip2 block: the compressor that writes it, and its round trip. A block decodes to the data
    exactly when the data uses at most 255 byte values. */
module Bzip2Block {
  import opened Bytes
  import opened CanonicalHuffman
  import opened Bzip2Bits
  import opened Bzip2Rle
  import opened Bzip2Mtf
  import opened Bzip2Bwt
  import opened Bzip2Format

  // ----- the bits of a block as written -----

  /** The groups of which a value occurs. */
  function GroupMarks(l: seq<Byte>): (r: seq<bool>)
    ensures |r| == 16 && MarksGroups(r, l)
  {
    seq(16, i requires 0 <= i < 16 => GroupUsed(l, i))
  }

  /** How many byte values occur. */
  function Distinct256(l: seq<Byte>): nat {
    |SymbolMap(l, 256)|
  }

  function Zeros(n: nat): (r: seq<Bit>)
    ensures |r| == n
  {
    seq(n, _ => 0)
  }

  function Repeated(part: seq<Bit>, n: nat): seq<Bit> {
    if n == 0 then [] else part + Repeated(part, n - 1)
  }

  function CodeLenFrom(n: nat, len: nat): (r: nat)
    requires n <= 258 && len <= 9
    ensures len <= r <= 9 && n <= Pow2(r)
    decreases 9 - len
  {
    if len == 9 then Pow2Nine(); 9
    else if Pow2(len) >= n then len else CodeLenFrom(n, len + 1)
  }

  lemma Pow2Nine()
    ensures Pow2(9) == 512
  {
    Pow2Eight();
  }

  function GroupCount(zrleLen: nat): (g: nat)
    ensures 2 <= g <= 6
  {
    var g := zrleLen / 50 + 1;
    if g < 2 then 2 else if g > 6 then 6 else g
  }

  function SelectorCount(zrleLen: nat): nat { (zrleLen + 49) / 50 }

  function FixedBits(z: seq<Byte>, codeLen: nat): seq<Bit> {
    if z == [] then [] else ToBits(z[0], codeLen) + FixedBits(z[1..], codeLen)
  }

  /** The move-to-front ranks of last column `l`. */
  function RanksOf(l: seq<Byte>): seq<Byte> {
    SymbolMapHas(l, 256);
    Ranks(l, SymbolMap(l, 256))
  }

  /** The coded symbols of last column `l`. */
  function Coded(l: seq<Byte>): seq<Byte> {
    Zrle(RanksOf(l))
  }

  function FixedTable(codeLen: nat, symbols: nat): seq<Bit> {
    ToBits(codeLen, 5) + Zeros(symbols)
  }

  /** Everything behind the origin. */
  function BlockBody(l: seq<Byte>): seq<Bit> {
    var z, symbols := Coded(l), Distinct256(l) + 2;
    var codeLen := CodeLenFrom(symbols, 1);
    Flags(GroupMarks(l)) + (SecondMap(l, GroupMarks(l), 0)
    + (ToBits(GroupCount(|z|), 3)
    + (ToBits(SelectorCount(|z|), 15)
    + (Zeros(SelectorCount(|z|))
    + (Repeated(FixedTable(codeLen, symbols), GroupCount(|z|))
    + (FixedBits(z, codeLen)
    + ToBits(symbols - 1, codeLen)))))))
  }

  /** Groups, selector and tables that nobody looks at behind a map of no bytes. */
  function EmptyTail(): seq<Bit> {
    ToBits(2, 3) + (ToBits(1, 15) + (Zeros(1) + (ToBits(5, 5) + (Zeros(2) + (ToBits(5, 5) + Zeros(2))))))
  }

  function EmptyBlock(): seq<Bit> {
    ToBits(0, 24) + (Zeros(16) + EmptyTail())
  }

  /** A block with this last column. */
  function BlockBits(l: seq<Byte>, origin: nat): seq<Bit> {
    if l == [] then EmptyBlock() else ToBits(origin, 24) + BlockBody(l)
  }

  // ----- writing -----

  method WriteZeros(writer: BitWriter, n: nat)
    requires writer.Ok()
    modifies writer
    ensures writer.Ok() && writer.Written() == old(writer.Written()) + Zeros(n)
  {
    ghost var w := writer.Written();
    assert w + Zeros(0) == w;
    var i: nat := 0;
    while i < n
      invariant i <= n && writer.Ok() && writer.Written() == w + Zeros(i)
    {
      writer.WriteBits(0, 1);
      OneZero();
      assert Zeros(i) + [0] == Zeros(i + 1);
      Assoc(w, Zeros(i), [0]);
      i := i + 1;
    }
  }

  lemma OneZero()
    ensures ToBits(0, 1) == [0]
  {
  }

  method WriteFlags(writer: BitWriter, flags: seq<bool>)
    requires writer.Ok()
    modifies writer
    ensures writer.Ok() && writer.Written() == old(writer.Written()) + Flags(flags)
  {
    hide Pow2, ToBits;
    ghost var w := writer.Written();
    assert w + Flags(flags[..0]) == w;
    var i: nat := 0;
    while i < |flags|
      invariant i <= |flags| && writer.Ok() && writer.Written() == w + Flags(flags[..i])
    {
      var b := Flag(flags[i]);
      writer.WriteBits(b, 1);
      OneBit(b);
      assert Flags(flags[..i]) + [b] == Flags(flags[..i + 1]);
      Assoc(w, Flags(flags[..i]), [b]);
      i := i + 1;
    }
    assert flags[..i] == flags;
  }

  /** `used` marks the bytes of `l`. */
  ghost predicate Marks(used: seq<bool>, l: seq<Byte>) {
    |used| == 256 && forall x: Byte :: used[x] <==> x in l
  }

  method MarkUsed(l: seq<Byte>) returns (used: seq<bool>)
    ensures Marks(used, l)
  {
    used := seq(256, _ => false);
    var i: nat := 0;
    while i < |l|
      invariant i <= |l| && |used| == 256 && forall x: Byte :: used[x] <==> x in l[..i]
    {
      assert l[..i + 1] == l[..i] + [l[i]];
      used := used[l[i] := true];
      i := i + 1;
    }
    assert l[..i] == l;
  }

  method AnyInGroup(used: seq<bool>, i: nat, ghost l: seq<Byte>) returns (hasAny: bool)
    requires Marks(used, l) && i < 16
    ensures hasAny == GroupUsed(l, i)
  {
    var j: nat := 0;
    while j < 16
      invariant j <= 16 && forall k: nat :: k < j ==> !InGroup(l, i, k)
    {
      if used[16 * i + j] {
        assert InGroup(l, i, j);
        return true;
      }
      assert !InGroup(l, i, j);
      j := j + 1;
    }
    return false;
  }

  method FindGroups(used: seq<bool>, ghost l: seq<Byte>) returns (mapL1: seq<bool>)
    requires Marks(used, l)
    ensures mapL1 == GroupMarks(l)
  {
    mapL1 := [];
    var i: nat := 0;
    while i < 16
      invariant i <= 16 && |mapL1| == i && forall k :: 0 <= k < i ==> mapL1[k] == GroupUsed(l, k)
    {
      var hasAny := AnyInGroup(used, i, l);
      mapL1 := mapL1 + [hasAny];
      i := i + 1;
    }
  }

  lemma GroupFlags(used: seq<bool>, l: seq<Byte>, i: nat)
    requires Marks(used, l) && i < 16
    ensures Flags(used[16 * i..16 * i + 16]) == GroupMap(l, i, 16)
  {
  }

  method WriteSymbolMap(writer: BitWriter, ghost l: seq<Byte>, used: seq<bool>)
    requires writer.Ok() && Marks(used, l)
    modifies writer
    ensures writer.Ok()
        && writer.Written() == old(writer.Written()) + Flags(GroupMarks(l)) + SecondMap(l, GroupMarks(l), 0)
  {
    var mapL1 := FindGroups(used, l);
    WriteFlags(writer, mapL1);
    ghost var w := writer.Written();
    var i: nat := 0;
    while i < 16
      invariant i <= 16 && writer.Ok()
      invariant writer.Written() + SecondMap(l, mapL1, i) == w + SecondMap(l, mapL1, 0)
    {
      ghost var v := writer.Written();
      if mapL1[i] {
        GroupFlags(used, l, i);
        WriteFlags(writer, used[16 * i..16 * i + 16]);
        Assoc(v, GroupMap(l, i, 16), SecondMap(l, mapL1, i + 1));
      } else {
        assert [] + SecondMap(l, mapL1, i + 1) == SecondMap(l, mapL1, i + 1);
      }
      i := i + 1;
    }
    assert writer.Written() + [] == writer.Written();
  }

  method WriteTables(writer: BitWriter, codeLen: nat, symbols: nat, groups: nat)
    requires writer.Ok()
    modifies writer
    ensures writer.Ok()
    ensures writer.Written() == old(writer.Written()) + Repeated(FixedTable(codeLen, symbols), groups)
  {
    ghost var w, part := writer.Written(), FixedTable(codeLen, symbols);
    var i: nat := groups;
    while i > 0
      invariant i <= groups && writer.Ok()
      invariant writer.Written() + Repeated(part, i) == w + Repeated(part, groups)
    {
      ghost var v := writer.Written();
      writer.WriteBits(codeLen, 5);
      WriteZeros(writer, symbols);
      Assoc(v, ToBits(codeLen, 5), Zeros(symbols));
      Assoc(v, part, Repeated(part, i - 1));
      i := i - 1;
    }
    assert writer.Written() + [] == writer.Written();
  }

  method WriteSymbols(writer: BitWriter, z: seq<Byte>, codeLen: nat)
    requires writer.Ok()
    modifies writer
    ensures writer.Ok() && writer.Written() == old(writer.Written()) + FixedBits(z, codeLen)
  {
    ghost var w := writer.Written();
    var i: nat := 0;
    assert z[0..] == z;
    while i < |z|
      invariant i <= |z| && writer.Ok()
      invariant writer.Written() + FixedBits(z[i..], codeLen) == w + FixedBits(z, codeLen)
    {
      ghost var v := writer.Written();
      writer.WriteBits(z[i], codeLen);
      assert z[i..][1..] == z[i + 1..];
      Assoc(v, ToBits(z[i], codeLen), FixedBits(z[i + 1..], codeLen));
      i := i + 1;
    }
    assert z[i..] == [] && writer.Written() + [] == writer.Written();
  }

  method WriteEmptyBlock(writer: BitWriter)
    requires writer.Ok()
    modifies writer
    ensures writer.Ok() && writer.Written() == old(writer.Written()) + EmptyBlock()
  {
    hide ToBits, Zeros;
    ghost var w := writer.Written();
    writer.WriteBits(0, 24);
    WriteZeros(writer, 16);
    writer.WriteBits(2, 3);
    writer.WriteBits(1, 15);
    WriteZeros(writer, 1);
    writer.WriteBits(5, 5);
    WriteZeros(writer, 2);
    writer.WriteBits(5, 5);
    WriteZeros(writer, 2);
    Assoc8(w, ToBits(0, 24), Zeros(16), ToBits(2, 3), ToBits(1, 15), Zeros(1), ToBits(5, 5), Zeros(2),
           ToBits(5, 5) + Zeros(2));
    Assoc(w + ToBits(0, 24) + Zeros(16) + ToBits(2, 3) + ToBits(1, 15) + Zeros(1) + ToBits(5, 5) + Zeros(2),
          ToBits(5, 5), Zeros(2));
  }

  /** Writes a block. The sizes are those of the largest block bzip2 cuts. */
  method CompressBlock(data: seq<Byte>, writer: BitWriter)
      returns (ghost l: seq<Byte>, ghost origin: nat, ghost p: seq<nat>)
    requires |data| <= 900000 && writer.Ok()
    modifies writer
    ensures writer.Ok()
    ensures writer.Written() == old(writer.Written()) + BlockBits(l, origin) && FromSorting(data, l, origin, p)
  {
    hide BlockBody, SymbolMap, Coded, ToBits, Repeated, Flags, SecondMap;
    if data == [] {
      WriteEmptyBlock(writer);
      l, origin, p := [], 0, [];
      return;
    }
    var rleData := Rle1Encode(data);
    var bwtData, originPtr, perm := BwtTransform(rleData);
    l, origin, p := bwtData, originPtr, perm;
    ghost var w := writer.Written();
    writer.WriteBits(originPtr, 24);
    WriteBody(bwtData, writer);
    Assoc(w, ToBits(origin, 24), BlockBody(l));
  }

  /** Everything behind the origin pointer. */
  method WriteBody(bwtData: seq<Byte>, writer: BitWriter)
    requires bwtData != [] && writer.Ok()
    modifies writer
    ensures writer.Ok() && writer.Written() == old(writer.Written()) + BlockBody(bwtData)
  {
    hide SymbolMap, ToBits, Repeated, Flags, SecondMap, Zrle, Ranks, FixedBits, CodeLenFrom;
    ghost var w := writer.Written();
    var used := MarkUsed(bwtData);
    var symbolMap := SymbolMap(bwtData, 256);
    SymbolMapHas(bwtData, 256);
    var mtfData := MtfEncode(bwtData, symbolMap);
    var zrleData := ZrleEncode(mtfData);
    WriteSymbolMap(writer, bwtData, used);
    var numSymbols := |symbolMap| + 2;
    var numGroups := GroupCount(|zrleData|);
    writer.WriteBits(numGroups, 3);
    var numSelectors := (|zrleData| + 49) / 50;
    writer.WriteBits(numSelectors, 15);
    WriteZeros(writer, numSelectors);
    var codeLen := CodeLenFrom(numSymbols, 1);
    WriteTables(writer, codeLen, numSymbols, numGroups);
    WriteSymbols(writer, zrleData, codeLen);
    writer.WriteBits(numSymbols - 1, codeLen);
    Assoc8(w, Flags(GroupMarks(bwtData)), SecondMap(bwtData, GroupMarks(bwtData), 0), ToBits(numGroups, 3),
        ToBits(numSelectors, 15),
           Zeros(numSelectors), Repeated(FixedTable(codeLen, numSymbols), numGroups),
           FixedBits(zrleData, codeLen), ToBits(numSymbols - 1, codeLen));
  }

  lemma Assoc8(w: seq<Bit>, a: seq<Bit>, b: seq<Bit>, c: seq<Bit>, d: seq<Bit>, e: seq<Bit>, f: seq<Bit>,
               g: seq<Bit>, h: seq<Bit>)
    ensures w + a + b + c + d + e + f + g + h == w + (a + (b + (c + (d + (e + (f + (g + h)))))))
  {
    Assoc(f, g, h);
    Assoc(e, f + g, h);
    Assoc(e, f, g);
    var efgh := e + (f + (g + h));
    assert efgh == e + f + g + h;
    assert w + a + b + c + d + e + f + g + h == w + a + b + c + d + efgh;
    Assoc(w + a + b + c, d, efgh);
    Assoc(w + a + b, c, d + efgh);
    Assoc(w + a, b, c + (d + efgh));
    Assoc(w, a, b + (c + (d + efgh)));
  }

  lemma CodedFacts(l: seq<Byte>)
    requires l != []
    ensures var z := Coded(l);
      && z != [] && |z| <= |l| && 1 <= Distinct256(l) <= 256
      && forall k :: 0 <= k < |z| ==> z[k] < Distinct256(l) + 1
    ensures Distinct256(l) <= 255 ==> 255 !in RanksOf(l)
  {
    var map256 := SymbolMap(l, 256);
    SymbolMapHas(l, 256);
    assert l[0] in map256;
    var ranks := Ranks(l, map256);
    LastRank(l, map256);
    ZrleSize(ranks);
    ZrleBound(ranks, |map256|);
  }

  // ----- what is written is a block -----

  /** The block the compressor writes: one length for all codes, and always the first table. */
  function FixedBlock(l: seq<Byte>, origin: nat): Block {
    var z, symbols := Coded(l), Distinct256(l) + 2;
    Block(origin, l, GroupMarks(l),
          Rep<Deltas>(Deltas(CodeLenFrom(symbols, 1), Rep<seq<bool>>([], symbols)), GroupCount(|z|)),
          Rep<Byte>(0, SelectorCount(|z|)), z)
  }

  /** Nothing goes up or down. */
  lemma {:induction false} NoStepBits(n: nat)
    ensures AllStepBits(Rep<seq<bool>>([], n)) == Zeros(n)
    decreases n
  {
    if n > 0 {
      NoStepBits(n - 1);
      assert Rep<seq<bool>>([], n)[1..] == Rep<seq<bool>>([], n - 1);
      assert [0] + Zeros(n - 1) == Zeros(n);
    }
  }

  lemma {:induction false} SameLengths(len: Byte, n: nat)
    ensures LengthsFrom(len, Rep<seq<bool>>([], n)) == Rep<nat>(len, n)
    decreases n
  {
    if n > 0 {
      SameLengths(len, n - 1);
      assert Rep<seq<bool>>([], n)[1..] == Rep<seq<bool>>([], n - 1);
      assert [len] + Rep<nat>(len, n - 1) == Rep<nat>(len, n);
    }
  }

  lemma {:induction false} SameTables(codeLen: nat, symbols: nat, n: nat)
    ensures TableBits(Rep<Deltas>(Deltas(codeLen, Rep<seq<bool>>([], symbols)), n))
         == Repeated(FixedTable(codeLen, symbols), n)
    decreases n
  {
    hide ToBits;
    var d := Deltas(codeLen, Rep<seq<bool>>([], symbols));
    if n > 0 {
      SameTables(codeLen, symbols, n - 1);
      assert Rep<Deltas>(d, n)[1..] == Rep<Deltas>(d, n - 1);
      NoStepBits(symbols);
    }
  }

  /** The first table keeps rank 0. */
  lemma {:induction false} FirstRank(n: nat, groups: nat)
    requires 0 < groups <= 6
    ensures forall x :: x in Rep<Byte>(0, n) ==> x in Identity(groups)
    ensures RankBits(Ranks(Rep<Byte>(0, n), Identity(groups))) == Zeros(n)
    decreases n
  {
    assert Identity(groups)[0] == 0;
    if n > 0 {
      FirstRank(n - 1, groups);
      assert Rep<Byte>(0, n)[1..] == Rep<Byte>(0, n - 1);
      assert ToFront(Identity(groups), 0) == Identity(groups);
      assert Ranks(Rep<Byte>(0, n), Identity(groups)) == [0] + Ranks(Rep<Byte>(0, n - 1), Identity(groups));
      assert Unary(0) + Zeros(n - 1) == Zeros(n);
    }
  }

  /** With one code length every symbol's codeword is its number. */
  lemma FixedWord(l: seq<Byte>, origin: nat, k: nat)
    requires l != [] && k <= |Coded(l)|
    ensures var b, codeLen := FixedBlock(l, origin), CodeLenFrom(Distinct256(l) + 2, 1);
      b.selectors != [] && SymbolOk(b, k) && Word(LengthsAt(b, k), SymbolAt(b, k)) == ToBits(SymbolAt(b, k), codeLen)
  {
    hide Coded, ToBits, CodeOf, Kraft, SymbolMap, Pow2;
    CodedFacts(l);
    var b, symbols := FixedBlock(l, origin), Distinct256(l) + 2;
    var codeLen := CodeLenFrom(symbols, 1);
    SameLengths(codeLen, symbols);
    var lengths := Rep<nat>(codeLen, symbols);
    assert SelectorFor(b.selectors, k) == 0;
    assert LengthsAt(b, k) == lengths;
    UniformKraft(lengths, codeLen);
    UniformCode(lengths, codeLen, SymbolAt(b, k));
  }

  lemma FixedOk(l: seq<Byte>, origin: nat)
    requires l != [] && origin < |l| <= 1125000
    ensures BlockOk(FixedBlock(l, origin)) && FixedBlock(l, origin).selectors != []
  {
    hide Coded, ToBits, CodeOf, Kraft, SymbolMap, Pow2, SymbolOk, MarksGroups;
    CodedFacts(l);
    FieldSizes();
    var b := FixedBlock(l, origin);
    SelectorFits(|Coded(l)|);
    forall k: nat | k <= |b.symbols| ensures SymbolOk(b, k) {
      FixedWord(l, origin, k);
    }
  }

  lemma SelectorFits(n: nat)
    requires 0 < n <= 1125000
    ensures 0 < SelectorCount(n) < 32768
  {
  }

  lemma {:induction false} FixedSymbols(l: seq<Byte>, origin: nat, k: nat, rest: seq<Bit>)
    requires l != [] && origin < |l| <= 1125000 && k <= |Coded(l)|
    requires BlockOk(FixedBlock(l, origin)) && FixedBlock(l, origin).selectors != []
    ensures var symbols := Distinct256(l) + 2;
      SymbolBits(FixedBlock(l, origin), k, rest)
      == FixedBits(Coded(l)[k..], CodeLenFrom(symbols, 1)) + (ToBits(symbols - 1, CodeLenFrom(symbols, 1)) + rest)
    decreases |Coded(l)| - k
  {
    hide Coded, ToBits, CodeOf, Kraft, SymbolMap, Pow2, SymbolOk, BlockOk, CodeLenFrom, Word, LengthsAt;
    var b, z, codeLen := FixedBlock(l, origin), Coded(l), CodeLenFrom(Distinct256(l) + 2, 1);
    FixedWord(l, origin, k);
    SymbolAhead(b, k, rest);
    if k < |z| {
      FixedSymbols(l, origin, k + 1, rest);
      assert z[k..][1..] == z[k + 1..];
      Assoc(ToBits(z[k], codeLen), FixedBits(z[k + 1..], codeLen), ToBits(Distinct256(l) + 1, codeLen) + rest);
    } else {
      assert z[k..] == [];
      assert [] + (ToBits(Distinct256(l) + 1, codeLen) + rest) == ToBits(Distinct256(l) + 1, codeLen) + rest;
    }
  }

  /** The bits written are those of the block. */
  lemma WrittenIsBlock(l: seq<Byte>, origin: nat, rest: seq<Bit>)
    requires l != [] && origin < |l| <= 1125000
    ensures LayoutOk(Full(FixedBlock(l, origin)))
    ensures BlockBits(l, origin) + rest == LayoutBits(Full(FixedBlock(l, origin)), rest)
  {
    hide Coded, ToBits, SymbolMap, Pow2, BlockOk, CodeLenFrom, SecondMap, Flags, Repeated, FixedTable, Zeros;
    hide RankBits, Ranks, TableBits, SymbolBits, FixedBits, SelectorCount, GroupCount, Distinct256;
    CodedFacts(l);
    FixedOk(l, origin);
    var b, z, symbols := FixedBlock(l, origin), Coded(l), Distinct256(l) + 2;
    var codeLen, groups, count := CodeLenFrom(symbols, 1), GroupCount(|z|), SelectorCount(|z|);
    assert LayoutOk(Full(b)) by { BlockSmall(b); }
    SameTables(codeLen, symbols, groups);
    FirstRank(count, groups);
    FixedSymbols(l, origin, 0, rest);
    assert z[0..] == z;
    Regroup8(ToBits(origin, 24), Flags(GroupMarks(l)), SecondMap(l, GroupMarks(l), 0), ToBits(groups, 3),
             ToBits(count, 15), Zeros(count), Repeated(FixedTable(codeLen, symbols), groups),
             FixedBits(z, codeLen), ToBits(symbols - 1, codeLen), rest);
  }

  lemma BlockSmall(b: Block)
    requires BlockOk(b)
    ensures b.origin < Pow2(24) && MarksGroups(b.marks, b.used)
  {
  }

  lemma Regroup8(o: seq<Bit>, a: seq<Bit>, b: seq<Bit>, c: seq<Bit>, d: seq<Bit>, e: seq<Bit>, f: seq<Bit>,
                 g: seq<Bit>, h: seq<Bit>, rest: seq<Bit>)
    ensures o + (a + (b + (c + (d + (e + (f + (g + h))))))) + rest
            == o + (a + (b + (c + (d + (e + (f + (g + (h + rest))))))))
  {
    Assoc(g, h, rest);
    Assoc(f, g + h, rest);
    Assoc(e, f + (g + h), rest);
    Assoc(d, e + (f + (g + h)), rest);
    Assoc(c, d + (e + (f + (g + h))), rest);
    Assoc(b, c + (d + (e + (f + (g + h)))), rest);
    Assoc(a, b + (c + (d + (e + (f + (g + h))))), rest);
    Assoc(o, a + (b + (c + (d + (e + (f + (g + h)))))), rest);
  }

  lemma SymbolsBack(l: seq<Byte>)
    requires l != [] && Distinct256(l) <= 255
    ensures Unranks(Unzrle(Coded(l)), SymbolMap(l, 256)) == l
  {
    CodedFacts(l);
    SymbolMapHas(l, 256);
    ZrleRoundTrip(Ranks(l, SymbolMap(l, 256)));
    MtfRoundTrip(l, SymbolMap(l, 256));
  }

  lemma SymbolsLost(l: seq<Byte>)
    requires l != [] && Distinct256(l) == 256
    ensures 255 !in Unranks(Unzrle(Coded(l)), SymbolMap(l, 256))
  {
    var map256, ranks := SymbolMap(l, 256), Unzrle(Coded(l));
    SymbolMapHas(l, 256);
    UnzrleBound(Coded(l));
    forall k | 0 <= k < |ranks| ensures ranks[k] < 255 {
      assert ranks[k] in ranks;
    }
    LastNeverDecoded(ranks, map256);
  }

  // ----- the block round trip -----

  /** The sorted rotations use the same bytes as the data. */
  lemma SameBytes(d: seq<Byte>, p: seq<nat>, x: Byte)
    requires d != [] && SortedRotations(d, p)
    ensures x in LastColumn(d, p) <==> x in d
  {
    var n, l := |d|, LastColumn(d, p);
    if x in l {
      var k :| 0 <= k < n && l[k] == x;
      assert x == Ch(d, p[k], n - 1);
    }
    if x in d {
      var i :| 0 <= i < n && d[i] == x;
      var start := if i + 1 == n then 0 else i + 1;
      var k := PermutationOnto(p, n, start);
      assert (start + (n - 1)) % n == i by {
        if i + 1 == n { DivUnique(start + n - 1, n, 0, i); } else { DivUnique(start + n - 1, n, 1, i); }
      }
      assert l[k] == x;
    }
  }

  /** An empty block maps no bytes; what is written behind the map is not read. */
  lemma WrittenIsEmpty(rest: seq<Bit>)
    ensures var x := NoBytes(0, Rep<bool>(false, 16));
      LayoutOk(x) && EmptyBlock() + rest == LayoutBits(x, EmptyTail() + rest)
    ensures Distinct256([]) == 0
  {
    hide ToBits, Zeros, EmptyTail, Flags, SecondMap, Pow2;
    SymbolMapNone(256);
    FieldSizes();
    NoneMarked(Rep<bool>(false, 16), 0);
    FlagsNone(16);
    var x, tail := NoBytes(0, Rep<bool>(false, 16)), EmptyTail() + rest;
    assert [] + tail == tail;
    assert LayoutBits(x, tail) == ToBits(0, 24) + (Zeros(16) + tail);
    Assoc(ToBits(0, 24), Zeros(16) + EmptyTail(), rest);
    Assoc(Zeros(16), EmptyTail(), rest);
  }

  lemma {:induction false} SymbolMapNone(n: nat)
    requires n <= 256
    ensures SymbolMap([], n) == []
  {
    if n > 0 {
      SymbolMapNone(n - 1);
    }
  }

  lemma {:induction false} NoneMarked(marks: seq<bool>, i: nat)
    requires |marks| == 16 && i <= 16 && forall k :: 0 <= k < 16 ==> !marks[k]
    ensures SecondMap([], marks, i) == []
    decreases 16 - i
  {
    if i < 16 {
      NoneMarked(marks, i + 1);
    }
  }

  lemma {:induction false} FlagsNone(n: nat)
    ensures Flags(Rep<bool>(false, n)) == Zeros(n)
  {
  }

  /** `l` and `origin` come from sorting the rotations of the run-length coded data. */
  ghost predicate FromSorting(data: seq<Byte>, l: seq<Byte>, origin: nat, p: seq<nat>) {
    if data == [] then l == []
    else
      && Rle1(data) != [] && SortedRotations(Rle1(data), p)
      && l == LastColumn(Rle1(data), p) && origin < |l| && p[origin] == 0
  }

  /** What the reader has ahead. */
  function LayoutFor(l: seq<Byte>, origin: nat): Layout {
    if l == [] then NoBytes(0, Rep<bool>(false, 16)) else Full(FixedBlock(l, origin))
  }

  lemma WrittenIsLayout(l: seq<Byte>, origin: nat, pad: seq<Bit>) returns (rest: seq<Bit>)
    requires l == [] || origin < |l| <= 1125000
    ensures LayoutOk(LayoutFor(l, origin))
    ensures BlockBits(l, origin) + pad == LayoutBits(LayoutFor(l, origin), rest)
  {
    hide BlockBits, LayoutOk, LayoutBits, EmptyBlock, FixedBlock, EmptyTail;
    if l == [] {
      WrittenIsEmpty(pad);
      EmptyBits(origin);
      rest := EmptyTail() + pad;
    } else {
      WrittenIsBlock(l, origin, pad);
      rest := pad;
    }
  }

  lemma EmptyBits(origin: nat)
    ensures BlockBits([], origin) == EmptyBlock()
  {
    hide EmptyBlock;
  }

  /** Compressing and decompressing a block gives the data back if and only if its run-length
      coded form uses at most 255 byte values. */
  method BlockRoundTrip(data: seq<Byte>) returns (back: Option<seq<Byte>>)
    requires |data| <= 900000
    ensures back == Some(data) <==> Distinct256(Rle1(data)) <= 255
  {
    hide BlockBits, Rle1, LayoutOk, LayoutBits, LayoutFor, EmptyTail, FromSorting, Undone, Distinct256;
    var writer := new BitWriter();
    ghost var l, origin, p := CompressBlock(data, writer);
    ghost var bits := writer.Written();
    writer.Flush();
    ghost var pad :| |pad| < 8 && writer.Written() == BitsOf(writer.data) == bits + pad;
    ColumnSize(data, l, origin, p);
    ghost var rest := WrittenIsLayout(l, origin, pad);
    assert [] + BlockBits(l, origin) == BlockBits(l, origin);
    assert bits == BlockBits(l, origin);
    back := Reread(writer.data, LayoutFor(l, origin), rest);
    RoundTripFacts(data, l, origin, p, back);
  }

  method Reread(bytes: seq<Byte>, ghost x: Layout, ghost rest: seq<Bit>) returns (back: Option<seq<Byte>>)
    requires LayoutOk(x) && BitsOf(bytes) == LayoutBits(x, rest)
    ensures Undone(x, back)
  {
    hide LayoutOk, LayoutBits, Undone;
    var reader := new BitReader(bytes);
    back := DecompressBlock(reader, x, rest);
  }

  lemma ColumnSize(data: seq<Byte>, l: seq<Byte>, origin: nat, p: seq<nat>)
    requires FromSorting(data, l, origin, p) && |data| <= 900000
    ensures l == [] || origin < |l| <= 1125000
  {
    hide Rle1;
    Rle1Size(data);
  }

  lemma RoundTripFacts(data: seq<Byte>, l: seq<Byte>, origin: nat, p: seq<nat>, back: Option<seq<Byte>>)
    requires FromSorting(data, l, origin, p)
    requires Undone(LayoutFor(l, origin), back)
    ensures back == Some(data) <==> Distinct256(Rle1(data)) <= 255
  {
    if data == [] {
      WrittenIsEmpty([]);
      return;
    }
    hide Rle1, Unrle1, Walk, SymbolMap, Coded, Unranks, Unzrle, Column, FixedBlock, Decodes;
    var d, column := Rle1(data), Column(FixedBlock(l, origin));
    forall x: Byte ensures x in l <==> x in d {
      SameBytes(d, p, x);
    }
    SameSymbols(l, d, 256);
    FixedColumn(l, origin);
    if Distinct256(l) <= 255 {
      SymbolsBack(l);
      ColumnBack(data, p, origin, back);
    } else {
      AllBytes(l);
      SymbolsLost(l);
      if back.Some? {
        ByteMissing(column, origin, back);
      }
      Rle1Bytes(data);
    }
  }

  /** The last column of the sorted rotations decodes to the data. */
  lemma ColumnBack(data: seq<Byte>, p: seq<nat>, origin: nat, r: Option<seq<Byte>>)
    requires Rle1(data) != [] && SortedRotations(Rle1(data), p) && origin < |p| && p[origin] == 0
    requires |LastColumn(Rle1(data), p)| == |p| && Decodes(LastColumn(Rle1(data), p), origin, r)
    ensures r == Some(data)
  {
    hide Rle1, Unrle1, Walk;
    var l := LastColumn(Rle1(data), p);
    var t :| StableSort(l, t) && r == Some(Unrle1(Walk(ThroughT(l, t), t, origin, |l|)));
    InverseOfTransform(Rle1(data), p, origin, t);
    Rle1RoundTrip(data);
  }

  lemma FixedColumn(l: seq<Byte>, origin: nat)
    ensures Column(FixedBlock(l, origin)) == Unranks(Unzrle(Coded(l)), SymbolMap(l, 256))
  {
    hide Coded, Unranks, Unzrle, SymbolMap;
    assert SymbolBytes(Coded(l)) == Coded(l);
  }

  lemma AllBytes(l: seq<Byte>)
    requires Distinct256(l) >= 256
    ensures Distinct256(l) == 256 && 255 in l
  {
    SymbolMapHas(l, 256);
    assert SymbolMap(l, 256)[255] == 255;
  }

  /** If 255 does not occur in the column it does not occur in what the column decodes to. */
  lemma ByteMissing(l: seq<Byte>, origin: nat, r: Option<seq<Byte>>)
    requires Decodes(l, origin, r) && r.Some? && 255 !in l
    ensures 255 !in r.value
  {
    hide Unrle1;
    if l == [] {
    } else {
      var t :| StableSort(l, t) && r == Some(Unrle1(Walk(ThroughT(l, t), t, origin, |l|)));
      WalkBytes(l, t, origin, |l|);
      Unrle1Bytes(Walk(ThroughT(l, t), t, origin, |l|));
    }
  }

  lemma {:induction false} WalkBytes(l: seq<Byte>, t: seq<nat>, idx: nat, n: nat)
    requires |t| == |l| && idx < |t| && forall k :: 0 <= k < |t| ==> t[k] < |t|
    ensures forall x :: x in Walk(ThroughT(l, t), t, idx, n) ==> x in l
    decreases n
  {
    if n > 0 {
      WalkBytes(l, t, t[idx], n - 1);
    }
  }
}
