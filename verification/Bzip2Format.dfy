/** The bits of a bzip2 block, as the format allows them, and the decompressor that reads them:
    any map of the bytes in use, up to six code tables with delta-coded lengths, a table chosen
    for every 50 symbols, and the coded symbols. */
module Bzip2Format {
  import opened Bytes
  import opened CanonicalHuffman
  import opened Bzip2Bits
  import opened Bzip2Rle
  import opened Bzip2Mtf
  import opened Bzip2Bwt

  // ----- the symbols in use -----

  /** The byte values below `n` that occur in `l`, ascending. */
  function SymbolMap(l: seq<Byte>, n: nat): (r: seq<Byte>)
    requires n <= 256
    ensures |r| <= n && forall k :: 0 <= k < |r| ==> r[k] < n
  {
    if n == 0 then [] else SymbolMap(l, n - 1) + (if n - 1 in l then [n - 1] else [])
  }

  lemma {:induction false} SymbolMapHas(l: seq<Byte>, n: nat)
    requires n <= 256
    ensures forall x: Byte :: x in SymbolMap(l, n) <==> x < n && x in l
    ensures NoRepeats(SymbolMap(l, n))
    ensures |SymbolMap(l, n)| == n ==> forall k :: 0 <= k < n ==> SymbolMap(l, n)[k] == k
    decreases n
  {
    if n > 0 {
      SymbolMapHas(l, n - 1);
    }
  }

  lemma {:induction false} SameSymbols(a: seq<Byte>, b: seq<Byte>, n: nat)
    requires n <= 256 && forall x: Byte :: x in a <==> x in b
    ensures SymbolMap(a, n) == SymbolMap(b, n)
    decreases n
  {
    if n > 0 {
      SameSymbols(a, b, n - 1);
    }
  }

  predicate GroupUsed(l: seq<Byte>, i: nat)
    requires i < 16
  {
    exists j: nat :: j < 16 && InGroup(l, i, j)
  }

  predicate InGroup(l: seq<Byte>, i: nat, j: nat)
    requires i < 16 && j < 16
  {
    16 * i + j in l
  }

  function Flag(b: bool): Bit { if b then 1 else 0 }

  /** Which groups are marked: at least those of which a value occurs. */
  ghost predicate MarksGroups(marks: seq<bool>, l: seq<Byte>) {
    |marks| == 16 && forall i: nat :: i < 16 && GroupUsed(l, i) ==> marks[i]
  }

  function Flags(b: seq<bool>): (r: seq<Bit>)
    ensures |r| == |b|
  {
    seq(|b|, k requires 0 <= k < |b| => Flag(b[k]))
  }

  /** The first `n` bits of group `i`. */
  function GroupMap(l: seq<Byte>, i: nat, n: nat): (r: seq<Bit>)
    requires i < 16 && n <= 16
    ensures |r| == n
  {
    seq(n, j requires 0 <= j < n => Flag(InGroup(l, i, j)))
  }

  /** The bits of the marked groups from `i` on. */
  function SecondMap(l: seq<Byte>, marks: seq<bool>, i: nat): seq<Bit>
    requires |marks| == 16 && i <= 16
    decreases 16 - i
  {
    if i == 16 then []
    else (if marks[i] then GroupMap(l, i, 16) else []) + SecondMap(l, marks, i + 1)
  }

  // ----- selectors -----

  function Identity(n: nat): (r: seq<Byte>)
    requires n <= 256
    ensures |r| == n && forall k :: 0 <= k < n ==> r[k] == k
  {
    seq(n, i requires 0 <= i < n => i)
  }

  /** `j` ones and a zero. */
  function Unary(j: nat): seq<Bit> {
    if j == 0 then [0] else [1] + Unary(j - 1)
  }

  /** The ranks in unary, one after the other. */
  function RankBits(ranks: seq<Byte>): seq<Bit> {
    if ranks == [] then [] else Unary(ranks[0]) + RankBits(ranks[1..])
  }

  // ----- code lengths -----

  /** The lengths of one code: where they start, and for each symbol the steps from the length
      before it, up (`true`) or down. */
  datatype Deltas = Deltas(start: nat, steps: seq<seq<bool>>)

  /** One up or down from a length. Going up wraps in a byte, going down stops at 0. */
  function Step(len: Byte, up: bool): Byte {
    if up then (len as int + 1) % 256 else if len > 0 then len - 1 else 0
  }

  function After(len: Byte, steps: seq<bool>): Byte
    decreases |steps|
  {
    if steps == [] then len else After(Step(len, steps[0]), steps[1..])
  }

  function LengthsFrom(len: Byte, steps: seq<seq<bool>>): (r: seq<nat>)
    ensures |r| == |steps|
    decreases |steps|
  {
    if steps == [] then [] else [After(len, steps[0])] + LengthsFrom(After(len, steps[0]), steps[1..])
  }

  function Lengths(d: Deltas): seq<nat>
    requires d.start < 32
  {
    LengthsFrom(d.start, d.steps)
  }

  /** 10 goes up, 11 goes down, 0 ends the steps of a symbol. */
  function StepBits(steps: seq<bool>): seq<Bit> {
    if steps == [] then [0] else [1, Flag(!steps[0])] + StepBits(steps[1..])
  }

  function AllStepBits(steps: seq<seq<bool>>): seq<Bit> {
    if steps == [] then [] else StepBits(steps[0]) + AllStepBits(steps[1..])
  }

  function DeltaBits(d: Deltas): seq<Bit> {
    ToBits(d.start, 5) + AllStepBits(d.steps)
  }

  function TableBits(tables: seq<Deltas>): seq<Bit> {
    if tables == [] then [] else DeltaBits(tables[0]) + TableBits(tables[1..])
  }

  /** The steps straight from one length to another. */
  function Straight(a: nat, b: nat): seq<bool> {
    if a <= b then Rep<bool>(true, b - a) else Rep<bool>(false, a - b)
  }

  lemma {:induction false} StraightThere(a: Byte, b: Byte)
    ensures After(a, Straight(a, b)) == b
    decreases if a <= b then b - a else a - b
  {
    if a < b {
      assert Straight(a, b)[1..] == Straight(a + 1, b);
      StraightThere(a + 1, b);
    } else if b < a {
      assert Straight(a, b)[1..] == Straight(a - 1, b);
      StraightThere(a - 1, b);
    }
  }

  function StepsTo(len: nat, lengths: seq<nat>): seq<seq<bool>>
    decreases |lengths|
  {
    if lengths == [] then [] else [Straight(len, lengths[0])] + StepsTo(lengths[0], lengths[1..])
  }

  /** Any lengths can be written. */
  lemma {:induction false} AnyLengths(len: Byte, lengths: seq<nat>)
    requires forall k :: 0 <= k < |lengths| ==> lengths[k] < 256
    ensures LengthsFrom(len, StepsTo(len, lengths)) == lengths
    decreases |lengths|
  {
    if lengths != [] {
      StraightThere(len, lengths[0]);
      AnyLengths(lengths[0], lengths[1..]);
      assert StepsTo(len, lengths)[1..] == StepsTo(lengths[0], lengths[1..]);
    }
  }

  // ----- a block -----

  /** `used` has the bytes in use, `marks` the groups of 16 that are mapped; `symbols` are the coded
      symbols without the one that ends the block. */
  datatype Block = Block(origin: nat, used: seq<Byte>, marks: seq<bool>, tables: seq<Deltas>, selectors: seq<Byte>,
                         symbols: seq<nat>)

  /** The bytes in use, two run symbols and the end of the block, less one rank. */
  function SymbolCount(b: Block): nat { |SymbolMap(b.used, 256)| + 2 }

  /** The table for symbol `k`: a selector stands for 50 symbols, the last for all that are left. */
  function SelectorFor(selectors: seq<Byte>, k: nat): Byte
    requires selectors != []
  {
    if k / 50 < |selectors| then selectors[k / 50] else selectors[|selectors| - 1]
  }

  function SymbolAt(b: Block, k: nat): nat {
    if k < |b.symbols| then b.symbols[k] else SymbolCount(b) - 1
  }

  /** The lengths of the code for symbol `k`. */
  function LengthsAt(b: Block, k: nat): seq<nat>
    requires b.selectors != []
  {
    var t := SelectorFor(b.selectors, k);
    if t < |b.tables| && b.tables[t].start < 32 then Lengths(b.tables[t]) else []
  }

  ghost predicate BlockOk(b: Block) {
    && b.origin < Pow2(24) && MarksGroups(b.marks, b.used) && SymbolMap(b.used, 256) != []
    && 2 <= |b.tables| <= 6 && |b.selectors| < 32768
    && (forall t :: 0 <= t < |b.tables| ==> b.tables[t].start < 32 && |b.tables[t].steps| == SymbolCount(b))
    && (forall k :: 0 <= k < |b.selectors| ==> b.selectors[k] < |b.tables|)
    && (b.selectors == [] ==> b.symbols == [])
    && (b.selectors != [] ==> SymbolsOk(b))
  }

  ghost predicate SymbolsOk(b: Block)
    requires b.selectors != []
  {
    forall k: nat :: k <= |b.symbols| ==> SymbolOk(b, k)
  }

  /** Symbol `k` has a code in its table, and only the last ends the block. */
  ghost predicate SymbolOk(b: Block, k: nat)
    requires b.selectors != []
  {
    HasWord(LengthsAt(b, k), SymbolAt(b, k)) && (k < |b.symbols| ==> b.symbols[k] < SymbolCount(b) - 1)
  }

  ghost function SymbolBits(b: Block, k: nat, rest: seq<Bit>): seq<Bit>
    requires b.selectors != [] && SymbolsOk(b)
    decreases |b.symbols| - k
  {
    if k > |b.symbols| then rest
    else
      assert SymbolOk(b, k);
      Word(LengthsAt(b, k), SymbolAt(b, k)) + if k == |b.symbols| then rest else SymbolBits(b, k + 1, rest)
  }

  /** What a block has behind its map of bytes, and what follows it. */
  ghost function TablesAndSymbols(b: Block, rest: seq<Bit>): seq<Bit>
    requires BlockOk(b)
  {
    SelectorsRanked(b);
    ToBits(|b.tables|, 3) + (ToBits(|b.selectors|, 15)
    + (RankBits(Ranks(b.selectors, Identity(|b.tables|)))
    + (TableBits(b.tables)
    + (if b.selectors == [] then rest else SymbolBits(b, 0, rest)))))
  }

  lemma SelectorsRanked(b: Block)
    requires BlockOk(b)
    ensures forall x :: x in b.selectors ==> x in Identity(|b.tables|)
  {
    forall x | x in b.selectors ensures x in Identity(|b.tables|) {
      var k :| 0 <= k < |b.selectors| && b.selectors[k] == x;
      assert Identity(|b.tables|)[x] == x;
    }
  }

  /** What can be ahead of the decompressor: a block, or one that maps no bytes, or one with a number of
      tables out of range. */
  datatype Layout =
    | Full(b: Block)
    | NoBytes(origin: nat, marks: seq<bool>)
    | BadGroups(origin: nat, used: seq<Byte>, marks: seq<bool>, groups: nat)

  function OriginOf(x: Layout): nat { if x.Full? then x.b.origin else x.origin }

  function UsedOf(x: Layout): seq<Byte> { if x.Full? then x.b.used else if x.BadGroups? then x.used else [] }

  function MarksOf(x: Layout): seq<bool> { if x.Full? then x.b.marks else x.marks }

  ghost predicate LayoutOk(x: Layout) {
    && OriginOf(x) < Pow2(24) && MarksGroups(MarksOf(x), UsedOf(x))
    && (x.Full? ==> BlockOk(x.b))
    && (x.BadGroups? ==> SymbolMap(x.used, 256) != [] && x.groups < 8 && !(2 <= x.groups <= 6))
  }

  ghost function LayoutBits(x: Layout, rest: seq<Bit>): seq<Bit>
    requires LayoutOk(x)
  {
    ToBits(OriginOf(x), 24) + (Flags(MarksOf(x)) + (SecondMap(UsedOf(x), MarksOf(x), 0)
    + match x
      case Full(b) => TablesAndSymbols(b, rest)
      case NoBytes(_, _) => rest
      case BadGroups(_, _, _, groups) => ToBits(groups, 3) + rest))
  }

  /** The coded symbols as bytes. Symbol 256, the highest rank when all bytes are in use, becomes 0. */
  function SymbolBytes(symbols: seq<nat>): (r: seq<Byte>)
    ensures |r| == |symbols|
  {
    seq(|symbols|, k requires 0 <= k < |symbols| => symbols[k] % 256)
  }

  /** The last column of the block. */
  function Column(b: Block): seq<Byte> {
    Unranks(Unzrle(SymbolBytes(b.symbols)), SymbolMap(b.used, 256))
  }

  /** `r` is what column `l` with this origin decodes to. An origin out of range is a crash, `None`. */
  ghost predicate Decodes(l: seq<Byte>, origin: nat, r: Option<seq<Byte>>) {
    if l == [] then r == Some([])
    else if origin >= |l| then r == None
    else exists t :: StableSort(l, t) && r == Some(Unrle1(Walk(ThroughT(l, t), t, origin, |l|)))
  }

  /** Only a whole block decodes to anything. */
  ghost predicate Undone(x: Layout, r: Option<seq<Byte>>) {
    if x.Full? then Decodes(Column(x.b), x.b.origin, r) else r == Some([])
  }

  // ----- reading -----

  lemma OneBit(b: Bit)
    ensures ToBits(b, 1) == [b]
  {
    assert ToBits(b / 2, 0) == [];
  }

  method ReadFlag(reader: BitReader, ghost b: bool, ghost rest: seq<Bit>) returns (flag: bool)
    requires reader.Ok() && reader.Remaining() == [Flag(b)] + rest
    modifies reader`pos, reader`buffer, reader`bits
    ensures flag == b && reader.Ok() && reader.Remaining() == rest
  {
    OneBit(Flag(b));
    assert Pow2(1) == 2;
    var bit := reader.Expect(1, Flag(b), rest);
    flag := bit != 0;
  }

  method ReadFlags(reader: BitReader, n: nat, ghost expected: seq<bool>, ghost rest: seq<Bit>)
      returns (flags: seq<bool>)
    requires |expected| == n && reader.Ok() && reader.Remaining() == Flags(expected) + rest
    modifies reader`pos, reader`buffer, reader`bits
    ensures flags == expected && reader.Ok() && reader.Remaining() == rest
  {
    hide Flags;
    flags := [];
    var i: nat := 0;
    assert expected[0..] == expected;
    while i < n
      invariant i <= n && flags == expected[..i]
      invariant reader.Ok() && reader.Remaining() == Flags(expected[i..]) + rest
    {
      PeelFlag(expected, i, rest);
      var b := ReadFlag(reader, expected[i], Flags(expected[i + 1..]) + rest);
      flags := flags + [b];
      i := i + 1;
    }
    NoFlags(expected[i..], rest);
  }

  lemma NoFlags(f: seq<bool>, rest: seq<Bit>)
    requires f == []
    ensures Flags(f) + rest == rest
  {
  }

  lemma PeelFlag(f: seq<bool>, i: nat, rest: seq<Bit>)
    requires i < |f|
    ensures Flags(f[i..]) + rest == [Flag(f[i])] + (Flags(f[i + 1..]) + rest)
    ensures f[..i + 1] == f[..i] + [f[i]]
  {
  }

  lemma Peel(m: seq<Bit>, i: nat, rest: seq<Bit>)
    requires i < |m|
    ensures m[i..] + rest == [m[i]] + (m[i + 1..] + rest)
  {
  }

  lemma SymbolMapNext(l: seq<Byte>, n: nat)
    requires n < 256
    ensures SymbolMap(l, n + 1) == SymbolMap(l, n) + (if n in l then [n] else [])
  {
  }

  /** The symbols of the first `i` groups of 16. */
  function UpToGroup(l: seq<Byte>, i: nat): seq<Byte>
    requires i <= 16
  {
    SymbolMap(l, 16 * i)
  }

  /** Nothing in a group that is not marked. */
  lemma {:induction false} SkipGroup(l: seq<Byte>, i: nat, j: nat)
    requires i < 16 && j <= 16 && !GroupUsed(l, i)
    ensures SymbolMap(l, 16 * i + j) == SymbolMap(l, 16 * i)
    decreases j
  {
    if j > 0 {
      SkipGroup(l, i, j - 1);
      SymbolMapNext(l, 16 * i + j - 1);
      assert !InGroup(l, i, j - 1);
    }
  }

  /** The occurring values below the j-th of group `i`. */
  function WithinGroup(l: seq<Byte>, i: nat, j: nat): seq<Byte>
    requires i < 16 && j <= 16
  {
    SymbolMap(l, 16 * i + j)
  }

  lemma GroupEnds(l: seq<Byte>, i: nat)
    requires i < 16
    ensures WithinGroup(l, i, 0) == UpToGroup(l, i) && WithinGroup(l, i, 16) == UpToGroup(l, i + 1)
  {
  }

  lemma GroupSymbol(l: seq<Byte>, i: nat, j: nat)
    requires i < 16 && j < 16
    ensures WithinGroup(l, i, j + 1)
         == if InGroup(l, i, j) then WithinGroup(l, i, j) + [16 * i + j] else WithinGroup(l, i, j)
  {
    SymbolMapNext(l, 16 * i + j);
  }

  lemma GroupBit(l: seq<Byte>, i: nat, j: nat, rest: seq<Bit>)
    requires i < 16 && j < 16
    ensures var m := GroupMap(l, i, 16); m[j..] + rest == [Flag(InGroup(l, i, j))] + (m[j + 1..] + rest)
  {
    Peel(GroupMap(l, i, 16), j, rest);
  }

  method ReadGroup(reader: BitReader, i: nat, symbols0: seq<Byte>, ghost l: seq<Byte>, ghost rest: seq<Bit>)
      returns (symbols: seq<Byte>)
    requires i < 16 && reader.Ok() && reader.Remaining() == GroupMap(l, i, 16) + rest
    requires symbols0 == UpToGroup(l, i)
    modifies reader`pos, reader`buffer, reader`bits
    ensures symbols == UpToGroup(l, i + 1) && reader.Ok() && reader.Remaining() == rest
  {
    hide InGroup, GroupMap, WithinGroup, UpToGroup, Flag, BitReader.Remaining;
    symbols := symbols0;
    GroupEnds(l, i);
    ghost var m := GroupMap(l, i, 16);
    var j: nat := 0;
    assert m[0..] == m;
    while j < 16
      invariant j <= 16 && symbols == WithinGroup(l, i, j)
      invariant reader.Ok() && reader.Remaining() == m[j..] + rest
    {
      GroupBit(l, i, j, rest);
      var b := ReadFlag(reader, InGroup(l, i, j), m[j + 1..] + rest);
      GroupSymbol(l, i, j);
      if b {
        var value: Byte := 16 * i + j;
        symbols := symbols + [value];
      }
      j := j + 1;
    }
    assert m[j..] + rest == rest;
  }

  /** The two-level map gives back the bytes in use, in ascending order. */
  method ReadSymbolMap(reader: BitReader, ghost l: seq<Byte>, ghost marks: seq<bool>, ghost rest: seq<Bit>)
      returns (symbols: seq<Byte>)
    requires MarksGroups(marks, l)
    requires reader.Ok() && reader.Remaining() == Flags(marks) + (SecondMap(l, marks, 0) + rest)
    modifies reader`pos, reader`buffer, reader`bits
    ensures symbols == SymbolMap(l, 256) && reader.Ok() && reader.Remaining() == rest
  {
    hide GroupUsed, GroupMap, UpToGroup, SecondMap, Flags;
    var mapL1 := ReadFlags(reader, 16, marks, SecondMap(l, marks, 0) + rest);
    symbols := [];
    NoSymbols(l);
    var i: nat := 0;
    while i < 16
      invariant i <= 16 && symbols == UpToGroup(l, i)
      invariant reader.Ok() && reader.Remaining() == SecondMap(l, marks, i) + rest
    {
      SecondMapStep(l, marks, i, rest);
      if mapL1[i] {
        symbols := ReadGroup(reader, i, symbols, l, SecondMap(l, marks, i + 1) + rest);
      } else {
        SkipWholeGroup(l, i);
      }
      i := i + 1;
    }
    SecondMapEnd(l, marks, rest);
    AllGroups(l);
  }

  lemma AllGroups(l: seq<Byte>)
    ensures UpToGroup(l, 16) == SymbolMap(l, 256)
  {
  }

  lemma SkipWholeGroup(l: seq<Byte>, i: nat)
    requires i < 16 && !GroupUsed(l, i)
    ensures UpToGroup(l, i + 1) == UpToGroup(l, i)
  {
    SkipGroup(l, i, 16);
  }

  lemma SecondMapEnd(l: seq<Byte>, marks: seq<bool>, rest: seq<Bit>)
    requires |marks| == 16
    ensures SecondMap(l, marks, 16) + rest == rest
  {
  }

  lemma SecondMapStep(l: seq<Byte>, marks: seq<bool>, i: nat, rest: seq<Bit>)
    requires |marks| == 16 && i < 16
    ensures SecondMap(l, marks, i) + rest ==
            if marks[i] then GroupMap(l, i, 16) + (SecondMap(l, marks, i + 1) + rest)
            else SecondMap(l, marks, i + 1) + rest
  {
    hide GroupMap;
    if marks[i] {
      Assoc(GroupMap(l, i, 16), SecondMap(l, marks, i + 1), rest);
    } else {
      assert [] + SecondMap(l, marks, i + 1) == SecondMap(l, marks, i + 1);
    }
  }

  lemma NoSymbols(l: seq<Byte>)
    ensures UpToGroup(l, 0) == []
  {
  }

  /** The number of one bits before the next zero. */
  method ReadUnary(reader: BitReader, max: nat, ghost n: nat, ghost rest: seq<Bit>) returns (j: nat)
    requires n < max && reader.Ok() && reader.Remaining() == Unary(n) + rest
    modifies reader`pos, reader`buffer, reader`bits
    ensures reader.Ok() && j == n && reader.Remaining() == rest
  {
    hide FromBits, BitReader.Remaining;
    j := 0;
    while j < max
      invariant j <= n && reader.Ok() && reader.Remaining() == Unary(n - j) + rest
    {
      ghost var before := reader.Remaining();
      PeelUnary(n - j, rest);
      FirstBit(before);
      var bit := reader.ReadBits(1);
      if bit == 0 {
        return;
      }
      j := j + 1;
    }
  }

  lemma PeelUnary(n: nat, rest: seq<Bit>)
    ensures var s := Unary(n) + rest;
      s != [] && s[0] == (if n == 0 then 0 else 1) && s[1..] == if n == 0 then rest else Unary(n - 1) + rest
  {
  }

  lemma FirstBit(s: seq<Bit>)
    ensures s != [] ==> FromBits(s[..1]) == s[0]
  {
    if s != [] {
      assert s[..1] == [s[0]] && [s[0]][..0] == [];
    }
  }

  /** The selectors whose ranks are ahead. */
  method ReadSelectors(reader: BitReader, numGroups: nat, numSelectors: nat, ghost expected: seq<Byte>,
                       ghost rest: seq<Bit>)
      returns (selectors: seq<Byte>)
    requires 0 < numGroups <= 6 && |expected| == numSelectors
    requires forall x :: x in expected ==> x in Identity(numGroups)
    requires reader.Ok() && reader.Remaining() == RankBits(Ranks(expected, Identity(numGroups))) + rest
    modifies reader`pos, reader`buffer, reader`bits
    ensures selectors == expected && reader.Ok() && reader.Remaining() == rest
  {
    hide Ranks, RankBits, ToFront;
    selectors := [];
    var mtf := new Byte[numGroups](i requires 0 <= i < numGroups => i);
    assert mtf[..] == Identity(numGroups);
    var k: nat := 0;
    assert expected[0..] == expected;
    while k < numSelectors
      invariant k <= numSelectors && selectors == expected[..k] && mtf.Length == numGroups && fresh(mtf)
      invariant forall x :: x in expected[k..] ==> x in mtf[..]
      invariant reader.Ok() && reader.Remaining() == RankBits(Ranks(expected[k..], mtf[..])) + rest
    {
      ghost var l, left := mtf[..], expected[k..];
      assert left[0] == expected[k] && left[0] in left && left[1..] == expected[k + 1..];
      ghost var n := Position(l, left[0]);
      ToFrontSame(l, n);
      PeelRank(left, l, rest);
      var j := ReadUnary(reader, numGroups, n, RankBits(Ranks(left[1..], ToFront(l, n))) + rest);
      var sel := mtf[j];
      MoveToFront(mtf, j, sel);
      selectors := selectors + [sel];
      assert expected[..k + 1] == expected[..k] + [expected[k]];
      k := k + 1;
    }
    NoRanks(expected[k..], mtf[..], rest);
  }

  lemma PeelRank(data: seq<Byte>, l: seq<Byte>, rest: seq<Bit>)
    requires data != [] && |l| <= 256 && forall x :: x in data ==> x in l
    ensures data[0] in l && forall x :: x in data[1..] ==> x in ToFront(l, Position(l, data[0]))
    ensures var n := Position(l, data[0]);
      RankBits(Ranks(data, l)) + rest == Unary(n) + (RankBits(Ranks(data[1..], ToFront(l, n))) + rest)
  {
    var n := Position(l, data[0]);
    ToFrontSame(l, n);
    var more := Ranks(data[1..], ToFront(l, n));
    assert Ranks(data, l) == [n] + more && ([n] + more)[1..] == more;
    Assoc(Unary(n), RankBits(more), rest);
  }

  lemma NoRanks(data: seq<Byte>, l: seq<Byte>, rest: seq<Bit>)
    requires data == [] && |l| <= 256
    ensures RankBits(Ranks(data, l)) + rest == rest
  {
  }

  /** The length after the steps ahead. */
  method ReadDelta(reader: BitReader, currLen: Byte, ghost steps: seq<bool>, ghost rest: seq<Bit>)
      returns (newLen: Byte)
    requires reader.Ok() && reader.Remaining() == StepBits(steps) + rest
    modifies reader`pos, reader`buffer, reader`bits
    ensures newLen == After(currLen, steps) && reader.Ok() && reader.Remaining() == rest
  {
    newLen := currLen;
    ghost var i: nat := 0;
    assert steps[0..] == steps;
    while true
      invariant i <= |steps| && After(newLen, steps[i..]) == After(currLen, steps)
      invariant reader.Ok() && reader.Remaining() == StepBits(steps[i..]) + rest
      decreases |steps| - i
    {
      ghost var before := reader.Remaining();
      PeelStep(steps[i..], rest);
      FirstBit(before);
      var bit := reader.ReadBits(1);
      if bit == 0 {
        return;
      }
      ghost var middle := reader.Remaining();
      FirstBit(middle);
      assert steps[i..][1..] == steps[i + 1..];
      var bit2 := reader.ReadBits(1);
      if bit2 == 0 {
        newLen := (newLen as int + 1) % 256;
      } else {
        newLen := if newLen > 0 then newLen - 1 else 0;
      }
      i := i + 1;
    }
  }

  lemma PeelStep(steps: seq<bool>, rest: seq<Bit>)
    ensures var s := StepBits(steps) + rest;
      if steps == [] then s != [] && s[0] == 0 && s[1..] == rest
      else s != [] && s[0] == 1 && s[1..] == [Flag(!steps[0])] + (StepBits(steps[1..]) + rest)
  {
  }

  /** The lengths of one code. */
  method ReadTable(reader: BitReader, symbols: nat, ghost d: Deltas, ghost rest: seq<Bit>) returns (lengths: seq<nat>)
    requires d.start < 32 && |d.steps| == symbols
    requires reader.Ok() && reader.Remaining() == DeltaBits(d) + rest
    modifies reader`pos, reader`buffer, reader`bits
    ensures lengths == Lengths(d) && reader.Ok() && reader.Remaining() == rest
  {
    hide ToBits, StepBits, After, AllStepBits;
    Assoc(ToBits(d.start, 5), AllStepBits(d.steps), rest);
    assert Pow2(5) == 32 by { assert Pow2(2) == 4; }
    var first := reader.Expect(5, d.start, AllStepBits(d.steps) + rest);
    var currLen: Byte := first;
    lengths := [];
    assert d.steps[0..] == d.steps;
    while |lengths| < symbols
      invariant |lengths| <= symbols && lengths + LengthsFrom(currLen, d.steps[|lengths|..]) == Lengths(d)
      invariant reader.Ok() && reader.Remaining() == AllStepBits(d.steps[|lengths|..]) + rest
      decreases symbols - |lengths|
    {
      ghost var left := d.steps[|lengths|..];
      assert left[1..] == d.steps[|lengths| + 1..];
      PeelSteps(left, rest);
      currLen := ReadDelta(reader, currLen, left[0], AllStepBits(left[1..]) + rest);
      Assoc(lengths, [currLen], LengthsFrom(currLen, left[1..]));
      lengths := lengths + [currLen];
    }
    NoSteps(d.steps[|lengths|..], currLen, rest);
    assert lengths + [] == lengths;
  }

  lemma PeelSteps(steps: seq<seq<bool>>, rest: seq<Bit>)
    requires steps != []
    ensures AllStepBits(steps) + rest == StepBits(steps[0]) + (AllStepBits(steps[1..]) + rest)
  {
    Assoc(StepBits(steps[0]), AllStepBits(steps[1..]), rest);
  }

  lemma NoSteps(steps: seq<seq<bool>>, len: Byte, rest: seq<Bit>)
    requires steps == []
    ensures AllStepBits(steps) + rest == rest && LengthsFrom(len, steps) == []
  {
  }

  method ReadDecoders(reader: BitReader, symbols: nat, groups: nat, ghost tables: seq<Deltas>, ghost rest: seq<Bit>)
      returns (decoders: seq<HuffmanDecoder>)
    requires |tables| == groups
    requires forall t :: 0 <= t < groups ==> tables[t].start < 32 && |tables[t].steps| == symbols
    requires reader.Ok() && reader.Remaining() == TableBits(tables) + rest
    modifies reader`pos, reader`buffer, reader`bits
    ensures |decoders| == groups && forall t :: 0 <= t < groups ==> decoders[t].From(Lengths(tables[t]))
    ensures reader.Ok() && reader.Remaining() == rest
  {
    hide DeltaBits, HuffmanDecoder.From, Lengths, TableBits;
    decoders := [];
    assert tables[0..] == tables;
    while |decoders| < groups
      invariant |decoders| <= groups
      invariant forall t :: 0 <= t < |decoders| ==> decoders[t].From(Lengths(tables[t]))
      invariant reader.Ok() && reader.Remaining() == TableBits(tables[|decoders|..]) + rest
      decreases groups - |decoders|
    {
      ghost var k := |decoders|;
      PeelTable(tables, k, rest);
      var lengths := ReadTable(reader, symbols, tables[k], TableBits(tables[k + 1..]) + rest);
      var decoder := HuffmanDecoder.FromLengths(lengths);
      decoders := decoders + [decoder];
    }
    NoTables(tables, rest);
  }

  lemma PeelTable(tables: seq<Deltas>, k: nat, rest: seq<Bit>)
    requires k < |tables|
    ensures TableBits(tables[k..]) + rest == DeltaBits(tables[k]) + (TableBits(tables[k + 1..]) + rest)
  {
    hide DeltaBits;
    assert tables[k..][0] == tables[k] && tables[k..][1..] == tables[k + 1..];
    Assoc(DeltaBits(tables[k]), TableBits(tables[k + 1..]), rest);
  }

  lemma NoTables(tables: seq<Deltas>, rest: seq<Bit>)
    ensures TableBits(tables[|tables|..]) + rest == rest
  {
    assert [] + rest == rest;
  }

  /** Decodes symbols up to the one that ends the block, changing the table every 50 symbols. */
  method ReadSymbols(reader: BitReader, decoders: seq<HuffmanDecoder>, selectors: seq<Byte>, numSymbols: nat,
                     ghost b: Block, ghost rest: seq<Bit>)
      returns (zrle: seq<Byte>)
    requires BlockOk(b) && b.selectors == selectors && numSymbols == SymbolCount(b) && |decoders| == |b.tables|
    requires forall t :: 0 <= t < |decoders| ==> decoders[t].From(Lengths(b.tables[t]))
    requires reader.Ok() && reader.Remaining() == if selectors == [] then rest else SymbolBits(b, 0, rest)
    modifies reader`pos, reader`buffer, reader`bits
    ensures zrle == SymbolBytes(b.symbols) && reader.Ok() && reader.Remaining() == rest
  {
    hide ToBits, HuffmanDecoder.From, Lengths, LengthsAt, SymbolBits, SymbolAt, BlockOk, SymbolsOk, SelectorFor;
    hide Kraft, CodeOf, SymbolBytes, BitReader.Remaining;
    BytesSoFar(b.symbols, 0);
    zrle := [];
    if selectors == [] {
      assert b.symbols == [] by { NoSelectors(b); }
      return;
    }
    var selectorIdx: nat, groupCount: nat := 0, 0;
    SymbolAhead(b, 0, rest);
    while true
      invariant |zrle| <= |b.symbols| && zrle == SymbolBytes(b.symbols[..|zrle|])
      invariant groupCount < 50 && |zrle| == 50 * selectorIdx + groupCount
      invariant reader.Ok() && reader.Remaining() == SymbolBits(b, |zrle|, rest)
      decreases |b.symbols| - |zrle|
    {
      ghost var k := |zrle|;
      SymbolAhead(b, k, rest);
      var effective := if selectorIdx < |selectors| then selectors[selectorIdx] else selectors[|selectors| - 1];
      Selected(selectors, selectorIdx, groupCount);
      var symbol := decoders[effective].Decode(reader, LengthsAt(b, k), SymbolAt(b, k), Later(b, k, rest));
      if symbol == numSymbols - 1 {
        assert b.symbols[..k] == b.symbols;
        return;
      }
      BytesSoFar(b.symbols, k);
      zrle := zrle + [symbol % 256];
      groupCount := groupCount + 1;
      if groupCount >= 50 {
        groupCount, selectorIdx := 0, selectorIdx + 1;
      }
    }
  }

  lemma BytesSoFar(symbols: seq<nat>, k: nat)
    requires k <= |symbols|
    ensures k == 0 ==> SymbolBytes(symbols[..k]) == []
    ensures k < |symbols| ==> SymbolBytes(symbols[..k + 1]) == SymbolBytes(symbols[..k]) + [symbols[k] % 256]
  {
  }

  lemma NoSelectors(b: Block)
    requires BlockOk(b) && b.selectors == []
    ensures b.symbols == []
  {
  }

  lemma Selected(selectors: seq<Byte>, i: nat, n: nat)
    requires selectors != [] && n < 50
    ensures SelectorFor(selectors, 50 * i + n) == if i < |selectors| then selectors[i] else selectors[|selectors| - 1]
  {
    assert (50 * i + n) / 50 == i;
  }

  ghost function Later(b: Block, k: nat, rest: seq<Bit>): seq<Bit>
    requires b.selectors != [] && SymbolsOk(b)
  {
    if k == |b.symbols| then rest else SymbolBits(b, k + 1, rest)
  }

  /** The codeword of symbol `k` is ahead, in the table its selector names. */
  lemma SymbolAhead(b: Block, k: nat, rest: seq<Bit>)
    requires BlockOk(b) && b.selectors != [] && k <= |b.symbols|
    ensures SymbolsOk(b)
    ensures var t := SelectorFor(b.selectors, k); t < |b.tables| && LengthsAt(b, k) == Lengths(b.tables[t])
    ensures HasWord(LengthsAt(b, k), SymbolAt(b, k))
    ensures SymbolAt(b, k) == SymbolCount(b) - 1 <==> k == |b.symbols|
    ensures k < |b.symbols| ==> SymbolAt(b, k) == b.symbols[k]
    ensures SymbolBits(b, k, rest) == Word(LengthsAt(b, k), SymbolAt(b, k)) + Later(b, k, rest)
  {
    hide HasWord, Word, Lengths, Kraft;
    assert SymbolOk(b, k);
  }

  lemma FieldSizes()
    ensures Pow2(3) == 8 && Pow2(15) == 32768 && Pow2(24) == 16777216
  {
    Pow2Eight();
    Pow2Add(8, 7);
    Pow2Add(8, 8);
    Pow2Add(16, 8);
    assert Pow2(4) == 16;
    Pow2Add(4, 3);
  }

  /** Decompresses a block of any tables, selectors and symbols. */
  method DecompressBlock(reader: BitReader, ghost x: Layout, ghost rest: seq<Bit>) returns (r: Option<seq<Byte>>)
    requires LayoutOk(x) && reader.Ok() && reader.Remaining() == LayoutBits(x, rest)
    modifies reader`pos, reader`buffer, reader`bits
    ensures reader.Ok() && reader.Remaining() == rest
    ensures Undone(x, r)
  {
    hide ToBits, Flags, SecondMap, SymbolMap, RankBits, Ranks, TableBits, SymbolBits, Pow2, SymbolOk, Lengths;
    hide MarksGroups, HuffmanDecoder.From, Decodes, SymbolBytes, Unzrle, Unranks;
    FieldSizes();
    ghost var l, marks := UsedOf(x), MarksOf(x);
    MarksLong(marks, l);
    ghost var r3 := match x case Full(b) => TablesAndSymbols(b, rest)
                            case NoBytes(_, _) => rest
                            case BadGroups(_, _, _, groups) => ToBits(groups, 3) + rest;
    var originPtr := reader.Expect(24, OriginOf(x), Flags(marks) + (SecondMap(l, marks, 0) + r3));
    var symbolMap := ReadSymbolMap(reader, l, marks, r3);
    if symbolMap == [] {
      return Some([]);
    }
    NoSymbolMap();
    var numSymbols := |symbolMap| + 2;
    ghost var r4 := if x.Full? then AfterCount(x.b, rest) else rest;
    var numGroups := reader.Expect(3, if x.Full? then |x.b.tables| else x.groups, r4);
    if numGroups < 2 || numGroups > 6 {
      return Some([]);
    }
    var zrleData := ReadCoded(reader, numSymbols, numGroups, x.b, rest);
    r := Undo(zrleData, symbolMap, originPtr);
  }

  lemma MarksLong(marks: seq<bool>, l: seq<Byte>)
    requires MarksGroups(marks, l)
    ensures |marks| == 16
  {
  }

  lemma NoSymbolMap()
    ensures SymbolMap([], 256) == []
  {
    SymbolMapHas([], 256);
    if SymbolMap([], 256) != [] {
      assert SymbolMap([], 256)[0] in SymbolMap([], 256);
    }
  }

  ghost function AfterCount(b: Block, rest: seq<Bit>): seq<Bit>
    requires BlockOk(b)
  {
    SelectorsRanked(b);
    ToBits(|b.selectors|, 15) + (RankBits(Ranks(b.selectors, Identity(|b.tables|)))
    + (TableBits(b.tables) + (if b.selectors == [] then rest else SymbolBits(b, 0, rest))))
  }

  /** Selectors, tables and symbols. */
  method ReadCoded(reader: BitReader, numSymbols: nat, numGroups: nat, ghost b: Block, ghost rest: seq<Bit>)
      returns (zrle: seq<Byte>)
    requires BlockOk(b) && numSymbols == SymbolCount(b) && numGroups == |b.tables|
    requires reader.Ok() && reader.Remaining() == AfterCount(b, rest)
    modifies reader`pos, reader`buffer, reader`bits
    ensures zrle == SymbolBytes(b.symbols) && reader.Ok() && reader.Remaining() == rest
  {
    hide ToBits, SymbolMap, RankBits, Ranks, TableBits, SymbolBits, Pow2, SymbolOk, Lengths;
    hide MarksGroups, HuffmanDecoder.From, SymbolBytes;
    FieldSizes();
    SelectorsRanked(b);
    ghost var r7 := if b.selectors == [] then rest else SymbolBits(b, 0, rest);
    ghost var r6 := TableBits(b.tables) + r7;
    var numSelectors := reader.Expect(15, |b.selectors|, RankBits(Ranks(b.selectors, Identity(|b.tables|))) + r6);
    var selectors := ReadSelectors(reader, numGroups, numSelectors, b.selectors, r6);
    var decoders := ReadDecoders(reader, numSymbols, numGroups, b.tables, r7);
    zrle := ReadSymbols(reader, decoders, selectors, numSymbols, b, rest);
  }

  /** The transforms, undone. */
  method Undo(zrleData: seq<Byte>, symbolMap: seq<Byte>, originPtr: nat) returns (r: Option<seq<Byte>>)
    ensures Decodes(Unranks(Unzrle(zrleData), symbolMap), originPtr, r)
  {
    hide Unzrle, Unranks, Unrle1, StableSort, Walk;
    var mtfData := ZrleDecode(zrleData);
    var bwtData := MtfDecode(mtfData, symbolMap);
    var rleData := BwtInverse(bwtData, originPtr);
    if rleData.None? {
      return None;
    }
    var out := Rle1Decode(rleData.value);
    if bwtData == [] {
      NothingUnrun();
    }
    r := Some(out);
  }

  lemma NothingUnrun()
    ensures Unrle1([]) == []
  {
  }
}
