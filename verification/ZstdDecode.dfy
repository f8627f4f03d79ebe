/** The zstd decoder: every method gives what the format says the data stands for. The content hash
    is a parameter. */
module ZstdDecode {
  import opened Bytes
  import opened LittleEndian
  import opened ZstdFse
  import opened ZstdBits
  import opened ZstdLz
  import opened ZstdSequences
  import opened ZstdNormalize
  import opened ZstdTables
  import opened ZstdHuffman
  import opened ZstdLiterals
  import opened ZstdFormat

  // ----- literals -----

  lemma OneByteHead(kind: nat, n: nat)
    requires kind < 4 && n < 32
    ensures var h := kind + n * 8; h % 4 == kind && (h / 4 % 4 == 0 || h / 4 % 4 == 2) && h / 8 == n
  {
  }

  lemma TwoByteHead(kind: nat, n: nat)
    requires kind < 4 && n < 4096
    ensures var h := kind + 4 + n * 16;
      h % 256 % 4 == kind && h % 256 / 4 % 4 == 1 && h / 256 < 256 && h % 256 / 16 + 16 * (h / 256) == n
  {
    assert (kind + 4 + n * 16) / 16 == n;
  }

  lemma ThreeByteHead(kind: nat, n: nat)
    requires kind < 4 && n < 0x10_0000
    ensures var h := kind + 12 + n * 16;
      && h % 256 % 4 == kind && h % 256 / 4 % 4 == 3 && h / 65536 < 256
      && h % 256 / 16 + 16 * (h / 256 % 256) + 4096 * (h / 65536) == n
  {
    var h := kind + 12 + n * 16;
    assert h / 16 == n;
    assert h / 65536 == h / 256 / 256;
    assert h / 256 == h / 256 % 256 + 256 * (h / 65536);
  }

  /** What the first bytes of the header say. */
  lemma HeaderSays(kind: nat, width: nat, n: nat)
    requires kind < 4 && SizeFits(width, n)
    ensures var h := LiteralsHead(kind, width, n);
      var f := h[0] / 4 % 4;
      && h[0] % 4 == kind
      && (width == 1 ==> (f == 0 || f == 2) && h[0] / 8 == n)
      && (width == 2 ==> f == 1 && h[0] / 16 + 16 * h[1] as int == n)
      && (width == 3 ==> f == 3 && h[0] / 16 + 16 * h[1] as int + 4096 * h[2] as int == n)
  {
    if width == 1 {
      OneByteHead(kind, n);
    } else if width == 2 {
      TwoByteHead(kind, n);
    } else {
      ThreeByteHead(kind, n);
    }
  }

  /** Size and length of the header of raw or run-length literals. */
  method LiteralsSize(data: seq<Byte>, ghost kind: nat, ghost width: nat, ghost n: nat) returns (r: Option<(nat, nat)>)
    requires data != []
    ensures r.Some? ==> 1 <= r.value.1 <= |data|
    ensures kind < 4 && SizeFits(width, n) && LiteralsHead(kind, width, n) <= data ==>
              data[0] % 4 == kind && r == Some((n, width))
  {
    hide LiteralsHead;
    if kind < 4 && SizeFits(width, n) {
      HeaderSays(kind, width, n);
    }
    var header: nat := data[0];
    var sizeFormat := header / 4 % 4;
    if sizeFormat == 0 || sizeFormat == 2 {
      return Some((header / 8, 1));
    } else if sizeFormat == 1 {
      if |data| < 2 {
        return None;
      }
      return Some((header / 16 + 16 * data[1] as int, 2));
    } else {
      if |data| < 3 {
        return None;
      }
      return Some((header / 16 + 16 * data[1] as int + 4096 * data[2] as int, 3));
    }
  }

  lemma RawStart(l: Literals, data: seq<Byte>)
    requires !l.HuffLiterals? && LiteralsShape(l) && LiteralsBytes(l) <= data
    ensures var n := if l.RawLiterals? then |l.bytes| else l.n;
      data != [] && SizeFits(l.width, n) && LiteralsHead(if l.RawLiterals? then 0 else 1, l.width, n) <= data
    ensures l.RawLiterals? ==>
              l.width + |l.bytes| == |LiteralsBytes(l)| <= |data| && data[l.width..l.width + |l.bytes|] == l.bytes
    ensures l.SameLiterals? ==> l.width + 1 == |LiteralsBytes(l)| <= |data| && data[l.width] == l.byte
  {
    hide LiteralsHead;
    var b := LiteralsBytes(l);
    assert data[..|b|] == b;
    assert forall k :: 0 <= k < |b| ==> data[k] == b[k];
  }

  /** Literals as they are, or one byte repeated, and how many bytes they took. */
  method DecodeRawLiterals(data: seq<Byte>, ghost l: Literals) returns (r: Option<(seq<Byte>, nat)>)
    requires data != [] && data[0] % 4 < 2
    ensures r.Some? ==> r.value.1 <= |data|
    ensures !l.HuffLiterals? && LiteralsShape(l) && LiteralsBytes(l) <= data ==>
              r == Some((if l.RawLiterals? then l.bytes else Rep<Byte>(l.byte, l.n), |LiteralsBytes(l)|))
  {
    hide LiteralsBytes, LiteralsHead, LiteralsShape;
    ghost var n0 := if l.RawLiterals? then |l.bytes| else if l.SameLiterals? then l.n else 0;
    if !l.HuffLiterals? && LiteralsShape(l) && LiteralsBytes(l) <= data {
      RawStart(l, data);
    }
    var size := LiteralsSize(data, if l.RawLiterals? then 0 else 1, if l.HuffLiterals? then 0 else l.width, n0);
    if size.None? {
      return None;
    }
    var n, header := size.value.0, size.value.1;
    if data[0] % 4 == 0 {
      if header + n > |data| {
        return None;
      }
      return Some((data[header..header + n], header + n));
    }
    if header >= |data| {
      return None;
    }
    return Some((Rep<Byte>(data[header], n), header + 1));
  }

  lemma FieldsBack(low: nat, n: nat, packed: nat, size: nat)
    requires low < 16 && n < size && packed < size
    ensures var v := low + 16 * (n + size * packed); v / 16 % size == n && v / (16 * size) == packed == packed % size
  {
    var p := packed * size;
    SizeTimes(packed, size);
    RestIs(n, p, size, packed);
    FieldsDivide(low, n, p, 16 * size, packed);
  }

  lemma RestIs(n: nat, p: nat, size: nat, packed: nat)
    requires p == packed * size && n < size && packed < size
    ensures (n + p) % size == n && packed % size == packed
  {
    DivUnique(n + p, size, packed, n);
    DivUnique(packed, size, 0, packed);
  }

  lemma SizeTimes(packed: nat, size: nat)
    ensures packed * (16 * size) == 16 * (packed * size) && size * packed == packed * size
  {
  }

  lemma FieldsDivide(low: nat, n: nat, p: nat, unit: nat, packed: nat)
    requires low < 16 && 16 * n + 16 <= unit && packed * unit == 16 * p
    ensures var v := low + 16 * (n + p); v / 16 == n + p && v / unit == packed
  {
    DivUnique(low + 16 * (n + p), 16, n + p, low);
    DivUnique(low + 16 * (n + p), unit, packed, low + 16 * n);
  }

  lemma LowBits(kind: nat, format: nat, x: nat)
    requires kind < 4 && format < 4
    ensures var b := (kind + 4 * format + 16 * x) % 256; b % 4 == kind && b / 4 % 4 == format
  {
    var q, r := x / 16, x % 16;
    var low := kind + 4 * format + 16 * r;
    DivUnique(kind + 4 * format + 16 * x, 256, q, low);
    DivUnique(low, 4, format + 4 * r, kind);
    DivUnique(format + 4 * r, 4, r, format);
  }

  /** Both sizes and the form of the header of Huffman-coded literals. */
  lemma HuffHeadSays(kind: nat, format: nat, n: nat, packed: nat)
    requires kind < 4 && format < 4 && n < SizeLimit(format) && packed < SizeLimit(format)
    ensures var head, size := HuffHead(kind, format, n, packed), SizeLimit(format);
      && |head| == HuffWidth(format) && head[0] % 4 == kind && head[0] / 4 % 4 == format
      && FromLe(head) / 16 % size == n && FromLe(head) / (16 * size) % size == packed
  {
    hide FromLe, Le, Pow256, SizeLimit;
    var x, width := n + SizeLimit(format) * packed, HuffWidth(format);
    LimitFits(format, n, packed);
    LeRoundTrip(kind + 4 * format + 16 * x, width);
    FirstOf(kind + 4 * format + 16 * x, width);
    LowBits(kind, format, x);
    FieldsBack(kind + 4 * format, n, packed, SizeLimit(format));
  }

  lemma FirstOf(v: nat, n: nat)
    requires n > 0
    ensures Le(v, n)[0] == v % 256
  {
  }

  lemma LimitFits(format: nat, n: nat, packed: nat)
    requires format < 4 && n < SizeLimit(format) && packed < SizeLimit(format)
    ensures 16 + 16 * (n + SizeLimit(format) * packed) <= Pow256(HuffWidth(format))
  {
    Sizes();
  }

  method HuffSizes(data: seq<Byte>, ghost kind: nat, ghost format: nat, ghost n: nat, ghost packed: nat)
      returns (r: Option<(nat, nat, nat, nat)>)
    requires data != []
    ensures r.Some? ==> r.value.3 <= |data|
    ensures kind < 4 && format < 4 && n < SizeLimit(format) && packed < SizeLimit(format)
            && HuffHead(kind, format, n, packed) <= data ==>
              data[0] % 4 == kind && r == Some((n, packed, if format == 0 then 1 else 4, HuffWidth(format)))
  {
    hide HuffHead, FromLe;
    if kind < 4 && format < 4 && n < SizeLimit(format) && packed < SizeLimit(format)
       && HuffHead(kind, format, n, packed) <= data
    {
      HuffHeadSays(kind, format, n, packed);
      assert data[..HuffWidth(format)] == HuffHead(kind, format, n, packed);
    }
    var sizeFormat := data[0] / 4 % 4;
    var width := if sizeFormat < 2 then 3 else if sizeFormat == 2 then 4 else 5;
    if |data| < width {
      return None;
    }
    var combined := FromLe(data[..width]);
    var streams := if sizeFormat == 0 then 1 else 4;
    if sizeFormat < 2 {
      return Some((combined / 16 % 0x400, combined / 0x4000 % 0x400, streams, width));
    } else if sizeFormat == 2 {
      return Some((combined / 16 % 0x4000, combined / 0x4_0000 % 0x4000, streams, width));
    } else {
      return Some((combined / 16 % 0x4_0000, combined / 0x40_0000 % 0x4_0000, streams, width));
    }
  }

  /** The streams behind the weights, one or four. */
  method DecodeStreams(t: HuffTable, data: seq<Byte>, streams: nat, n: nat, ghost on: bool, ghost tree: Tree,
                       ghost l: Literals)
      returns (r: Option<seq<Byte>>)
    requires Serves(t, tree)
    requires on ==> StreamsAhead(data, tree, l) && n == |l.symbols| && streams == (if l.format == 0 then 1 else 4)
    ensures on ==> r == Some(l.symbols)
  {
    hide Serves, AllCoded, Codewords, IsStream, FourBytes;
    if streams == 1 {
      r := Decompress1Stream(t, data, n, tree, if on then l.symbols else []);
    } else {
      r := Decompress4Streams(t, data, n, tree, if on then l.streams else [], if on then l.symbols else []);
    }
  }

  ghost predicate StreamsAhead(data: seq<Byte>, tree: Tree, l: Literals) {
    && l.HuffLiterals? && |l.streams| == (if l.format == 0 then 1 else 4)
    && if l.format == 0 then
         data == l.streams[0] && AllCoded(tree, l.symbols) && IsStream(l.streams[0], Codewords(tree, l.symbols))
       else data == FourBytes(l.streams) && FourStreams(tree, l.streams, l.symbols)
  }

  ghost predicate LiteralsAhead(data: seq<Byte>, l: Literals, m: Memory) {
    LiteralsOk(l, m) && LiteralsBytes(l) <= data
  }

  lemma HuffStart(data: seq<Byte>, l: Literals, m: Memory)
    requires l.HuffLiterals? && LiteralsAhead(data, l, m)
    ensures HuffShape(l)
    ensures HuffHead(if l.weights.Some? then 2 else 3, l.format, |l.symbols|, |HuffBody(l)|) <= data
    ensures var header := HuffWidth(l.format);
      && header + |HuffBody(l)| == |LiteralsBytes(l)| <= |data| && data[header..header + |HuffBody(l)|] == HuffBody(l)
    ensures l.weights.Some? ==>
              && WeightsOk(l.weights.value) && WeightBytes(l.weights.value) <= HuffBody(l)
              && (TreeFor(l, m).Some? ==>
                    StreamsAhead(HuffBody(l)[|WeightBytes(l.weights.value)|..], TreeFor(l, m).value, l))
    ensures l.weights.None? && TreeFor(l, m).Some? ==> StreamsAhead(HuffBody(l), TreeFor(l, m).value, l)
  {
    hide WeightsOk, WeightBytes, AllCoded, IsStream, Codewords, FourBytes, FourStreams, TreeOf;
    var b := LiteralsBytes(l);
    assert data[..|b|] == b;
    if l.weights.None? {
      assert HuffBody(l) == if l.format == 0 then l.streams[0] else FourBytes(l.streams);
    }
  }

  /** Huffman-coded literals; a tree of their own is kept for later blocks. */
  method DecodeHuffLiterals(data: seq<Byte>, state: BlockState, ghost l: Literals) returns (r: Option<(seq<Byte>, nat)>)
    requires state.Ok() && data != [] && data[0] % 4 >= 2
    modifies state`huffTable, state`tree
    ensures state.Ok() && (r.Some? ==> r.value.1 <= |data|)
    ensures l.HuffLiterals? && LiteralsAhead(data, l, old(state.Now())) ==>
              var read := ReadLiterals(l, old(state.Now()));
              if read.None? then r == None
              else r == Some((read.value.0, |LiteralsBytes(l)|)) && state.Now() == read.value.1
  {
    hide LiteralsAhead, HuffHead, HuffBody, WeightsOk, WeightBytes, StreamsAhead, TreeOf, Serves, Built, LiteralsBytes;
    ghost var on := l.HuffLiterals? && LiteralsAhead(data, l, state.Now());
    ghost var m := state.Now();
    ghost var w := if on && l.weights.Some? then l.weights.value else DirectWeights([], 0);
    ghost var kind, format, n0, packed := 2, 0, 0, 0;
    if on {
      HuffStart(data, l, m);
      assert HuffShape(l);
      kind, format, n0, packed := if l.weights.Some? then 2 else 3, l.format, |l.symbols|, |HuffBody(l)|;
    }
    var sizes := HuffSizes(data, kind, format, n0, packed);
    if sizes.None? {
      return None;
    }
    var n, size, streams, header := sizes.value.0, sizes.value.1, sizes.value.2, sizes.value.3;
    if header + size > |data| {
      return None;
    }
    var body := data[header..header + size];
    if data[0] % 4 == 2 {
      var weights := ReadWeights(body, w);
      if weights.None? {
        return None;
      }
      var built: Option<HuffTable>;
      ghost var tree: Tree;
      built, tree := BuildTree(weights.value.0);
      if built.None? {
        return None;
      }
      var lits := DecodeStreams(built.value, body[weights.value.1..], streams, n, on, tree, l);
      if lits.None? {
        return None;
      }
      state.huffTable, state.tree := built, Some(tree);
      return Some((lits.value, header + size));
    }
    if state.huffTable.None? {
      return None;
    }
    var lits := DecodeStreams(state.huffTable.value, body, streams, n, on, state.tree.value, l);
    return if lits.None? then None else Some((lits.value, header + size));
  }

  lemma LiteralsKind(data: seq<Byte>, l: Literals, m: Memory)
    requires LiteralsAhead(data, l, m)
    ensures LiteralsShape(l) && data != [] && (data[0] % 4 >= 2 <==> l.HuffLiterals?)
  {
    hide LiteralsAhead, LiteralsHead, HuffHead, LiteralsBytes;
    assert LiteralsShape(l) && LiteralsBytes(l) <= data && LiteralsOk(l, m) by { LiteralsFit(data, l, m); }
    if l.HuffLiterals? {
      HuffStart(data, l, m);
      var kind := if l.weights.Some? then 2 else 3;
      HuffHeadSays(kind, l.format, |l.symbols|, |HuffBody(l)|);
      assert data[0] == HuffHead(kind, l.format, |l.symbols|, |HuffBody(l)|)[0];
    } else {
      RawStart(l, data);
      var kind, n := if l.RawLiterals? then 0 else 1, if l.RawLiterals? then |l.bytes| else l.n;
      HeaderSays(kind, l.width, n);
      assert data[0] == LiteralsHead(kind, l.width, n)[0];
    }
  }

  lemma LiteralsFit(data: seq<Byte>, l: Literals, m: Memory)
    requires LiteralsAhead(data, l, m)
    ensures LiteralsOk(l, m) && LiteralsShape(l) && LiteralsBytes(l) <= data
  {
  }

  /** The literals and how many bytes they took. */
  method DecodeLiteralsSection(data: seq<Byte>, state: BlockState, ghost l: Literals)
      returns (r: Option<(seq<Byte>, nat)>)
    requires state.Ok()
    modifies state`huffTable, state`tree
    ensures state.Ok() && (r.Some? ==> r.value.1 <= |data|)
    ensures LiteralsAhead(data, l, old(state.Now())) ==>
              var read := ReadLiterals(l, old(state.Now()));
              if read.None? then r == None
              else r == Some((read.value.0, |LiteralsBytes(l)|)) && state.Now() == read.value.1
  {
    hide LiteralsAhead, LiteralsBytes, LiteralsShape, TreeFor, Built;
    if LiteralsAhead(data, l, state.Now()) {
      LiteralsKind(data, l, state.Now());
      LiteralsFit(data, l, state.Now());
    }
    if data == [] {
      return None;
    }
    if data[0] % 4 < 2 {
      r := DecodeRawLiterals(data, l);
    } else {
      r := DecodeHuffLiterals(data, state, l);
    }
  }

  // ----- the predefined tables -----

  lemma TotalOne(probs: seq<int>, p: int)
    ensures Total(probs + [p]) == Total(probs) + Weight(p)
  {
    assert (probs + [p])[..|probs|] == probs;
  }

  /** How many cells each symbol gets; the highest ones are less probable than one cell. */
  lemma PredefinedBySymbol(k: nat)
    ensures |LL_DEFAULT_DIST| == 36 && |OF_DEFAULT_DIST| == 29 && |ML_DEFAULT_DIST| == 53
    ensures k < 36 ==> LL_DEFAULT_DIST[k] == (if k == 0 then 4 else if k == 1 || k == 25 then 3
                                              else if k < 13 || 16 <= k < 27 then 2 else if k < 32 then 1 else -1)
    ensures k < 29 ==> OF_DEFAULT_DIST[k] == (if 6 <= k < 9 then 2 else if k < 24 then 1 else -1)
    ensures k < 53 ==> ML_DEFAULT_DIST[k] == (if k == 1 then 4 else if k == 2 then 3 else if 3 <= k < 9 then 2
                                              else if k < 46 then 1 else -1)
  {
  }

  /** The predefined distributions fill their tables, so these tables are safe. */
  lemma PredefinedFit()
    ensures Fits(LL_DEFAULT_DIST, 6) && Fits(OF_DEFAULT_DIST, 5) && Fits(ML_DEFAULT_DIST, 6)
  {
    hide Total;
    var l := [4, 3] + Rep<int>(2, 11) + Rep<int>(1, 3) + Rep<int>(2, 9);
    ShortTotals();
    TotalRep(2, 11, [4, 3]);
    TotalRep(1, 3, [4, 3] + Rep<int>(2, 11));
    TotalRep(2, 9, [4, 3] + Rep<int>(2, 11) + Rep<int>(1, 3));
    assert l + [3, 2] == l + [3] + [2];
    TotalOne(l, 3);
    TotalOne(l + [3], 2);
    TotalRep(1, 5, l + [3, 2]);
    TotalRep(-1, 4, l + [3, 2] + Rep<int>(1, 5));
    TotalRep(2, 6, [1, 4, 3]);
    TotalRep(1, 37, [1, 4, 3] + Rep<int>(2, 6));
    TotalRep(-1, 7, [1, 4, 3] + Rep<int>(2, 6) + Rep<int>(1, 37));
    assert [] + Rep<int>(1, 6) == Rep<int>(1, 6);
    TotalRep(1, 6, []);
    TotalRep(2, 3, Rep<int>(1, 6));
    TotalRep(1, 15, Rep<int>(1, 6) + Rep<int>(2, 3));
    TotalRep(-1, 5, Rep<int>(1, 6) + Rep<int>(2, 3) + Rep<int>(1, 15));
    Pow2Five();
    Doubled(5);
  }

  lemma ShortTotals()
    ensures Total([]) == 0 && Total([4, 3]) == 7 && Total([1, 4, 3]) == 8
  {
    var a: seq<int> := [4, 3];
    assert a[..1] == [4] && a[..1][..0] == [];
    var b: seq<int> := [1, 4, 3];
    assert b[..2] == [1, 4] && b[..2][..1] == [1] && b[..2][..1][..0] == [];
  }

  // ----- the sequences section -----

  /** What lasts from one block of a frame to the next. */
  class BlockState {
    var huffTable: Option<HuffTable>
    ghost var tree: Option<Tree>
    var llTable: Option<Table>
    var ofTable: Option<Table>
    var mlTable: Option<Table>
    var offsets: History

    ghost predicate Ok()
      reads this
    {
      && (huffTable.Some? <==> tree.Some?) && (huffTable.Some? ==> Serves(huffTable.value, tree.value))
      && (llTable.Some? ==> Built(llTable.value)) && (ofTable.Some? ==> Built(ofTable.value))
      && (mlTable.Some? ==> Built(mlTable.value))
    }

    ghost function Now(): Memory
      reads this
    {
      Memory(tree, llTable, ofTable, mlTable, offsets)
    }

    constructor ()
      ensures Ok() && Now() == FRESH
    {
      huffTable, tree, llTable, ofTable, mlTable, offsets := None, None, None, None, None, START;
    }
  }

  method ReadCount(data: seq<Byte>, ghost width: nat, ghost n: nat) returns (r: Option<(nat, nat)>)
    requires data != []
    ensures r.Some? ==> 1 <= r.value.1 <= |data|
    ensures CountFits(width, n) && CountForm(width, n) <= data ==> r == Some((n, width))
  {
    var first: nat := data[0];
    if first < 128 {
      return Some((first, 1));
    } else if first < 255 {
      if |data| < 2 {
        return None;
      }
      return Some(((first - 128) * 256 + data[1] as int, 2));
    } else {
      if |data| < 3 {
        return None;
      }
      return Some((data[1] as int + data[2] as int * 256 + 0x7F00, 3));
    }
  }

  /** The three tables, and where the bit stream starts. */
  method DecodeTables(data: seq<Byte>, modes: nat, state: BlockState, ghost on: bool, ghost s: Section)
      returns (r: Option<(Tables, nat)>)
    requires state.Ok() && modes < 256
    requires on ==> s.Sequenced? && SectionOk(s, state.Now())
                    && modes == ModesByte(Mode(s.ll), Mode(s.of), Mode(s.ml), s.low)
                    && data == SpecBytes(s.ll) + (SpecBytes(s.of) + (SpecBytes(s.ml) + s.stream))
    ensures r.Some? ==> Built(r.value.0.ll) && Built(r.value.0.of) && Built(r.value.0.ml) && r.value.1 <= |data|
    ensures on ==> var t := TablesFor(s, state.Now());
                   if t.None? then r == None
                   else r.Some? && r.value.0 == t.value && data[r.value.1..] == s.stream
  {
    hide SpecOk, SpecTable, SpecBytes, Built, LL_DEFAULT_DIST, OF_DEFAULT_DIST, ML_DEFAULT_DIST, Described, PlanOk;
    hide Total, Pow2;
    PredefinedFit();
    var llMode, ofMode, mlMode := modes / 64 % 4, modes / 16 % 4, modes / 4 % 4;
    if on {
      ModesBack(Mode(s.ll), Mode(s.of), Mode(s.ml), s.low);
    }
    var pos: nat := 0;
    if on {
      Ahead3(data, pos, SpecBytes(s.ll), SpecBytes(s.of) + (SpecBytes(s.ml) + s.stream));
    }
    var ll := DecodeSeqTable(data[pos..], llMode, state.llTable, LL_KIND, if on then s.ll else AsBefore);
    if ll.None? {
      return None;
    }
    pos := pos + ll.value.1;
    if on {
      Ahead3(data, pos, SpecBytes(s.of), SpecBytes(s.ml) + s.stream);
    }
    var of := DecodeSeqTable(data[pos..], ofMode, state.ofTable, OF_KIND, if on then s.of else AsBefore);
    if of.None? {
      return None;
    }
    pos := pos + of.value.1;
    if on {
      Ahead3(data, pos, SpecBytes(s.ml), s.stream);
    }
    var ml := DecodeSeqTable(data[pos..], mlMode, state.mlTable, ML_KIND, if on then s.ml else AsBefore);
    if ml.None? {
      return None;
    }
    pos := pos + ml.value.1;
    return Some((Tables(ll.value.0, of.value.0, ml.value.0), pos));
  }

  lemma Ahead3(data: seq<Byte>, pos: nat, header: seq<Byte>, rest: seq<Byte>)
    requires pos <= |data| && data[pos..] == header + rest
    ensures header <= data[pos..] && pos + |header| <= |data| && data[pos + |header|..] == rest
  {
    assert data[pos..][|header|..] == data[pos + |header|..];
  }

  lemma ModesBack(ll: nat, of: nat, ml: nat, low: nat)
    requires ll < 4 && of < 4 && ml < 4 && low < 4
    ensures var b: nat := ModesByte(ll, of, ml, low); b / 64 % 4 == ll && b / 16 % 4 == of && b / 4 % 4 == ml
  {
    var b: nat := ModesByte(ll, of, ml, low);
    TwoBits(b, 64, ll, 0, of * 16 + ml * 4 + low);
    TwoBits(b, 16, of, ll, ml * 4 + low);
    TwoBits(b, 4, ml, 4 * ll + of, low);
  }

  lemma TwoBits(b: nat, unit: nat, v: nat, high: nat, low: nat)
    requires v < 4 && low < unit && b == (4 * high + v) * unit + low
    ensures b / unit % 4 == v
  {
    DivUnique(b, unit, 4 * high + v, low);
    DivUnique(4 * high + v, 4, high, v);
  }

  ghost predicate SectionAhead(data: seq<Byte>, s: Section, m: Memory) {
    SectionOk(s, m) && data == SectionBytes(s)
  }

  /** The sequences; the tables are kept for later blocks. */
  method DecodeSequencesSection(data: seq<Byte>, state: BlockState, ghost s: Section)
      returns (r: Option<seq<Sequence>>)
    requires state.Ok()
    modifies state`llTable, state`ofTable, state`mlTable
    ensures state.Ok()
    ensures SectionAhead(data, s, old(state.Now())) ==>
              var read := Read(s, old(state.Now()));
              if read.None? then r == None else r == Some(read.value.0) && state.Now() == read.value.1
  {
    hide SpecOk, SpecBytes, PlanOk, IsStream, Built, CountForm, CountFits, SectionBytes, TablesFor, Mode;
    ghost var m := state.Now();
    ghost var on := SectionAhead(data, s, m);
    ghost var n0 := if s.Sequenced? then |s.plan.seqs| else 0;
    if on {
      SectionStarts(s);
    }
    if data == [] {
      return Some([]);
    }
    var first: nat := data[0];
    if first == 0 {
      return Some([]);
    }
    var count := ReadCount(data, s.width, n0);
    if count.None? {
      return None;
    }
    var n, pos := count.value.0, count.value.1;
    if n == 0 {
      return Some([]);
    }
    if on {
      AfterCount(data, s);
    }
    if pos >= |data| {
      return None;
    }
    var modes: nat := data[pos];
    r := DecodeSequences(data[pos + 1..], modes, n, state, on, s);
  }

  /** The sequences behind the modes: tables, then the bit stream. */
  method DecodeSequences(data: seq<Byte>, modes: nat, n: nat, state: BlockState, ghost on: bool, ghost s: Section)
      returns (r: Option<seq<Sequence>>)
    requires state.Ok() && modes < 256
    requires on ==> s.Sequenced? && SectionOk(s, state.Now()) && n == |s.plan.seqs|
                    && modes == ModesByte(Mode(s.ll), Mode(s.of), Mode(s.ml), s.low)
                    && data == SpecBytes(s.ll) + (SpecBytes(s.of) + (SpecBytes(s.ml) + s.stream))
    modifies state`llTable, state`ofTable, state`mlTable
    ensures state.Ok()
    ensures on ==> var read := Read(s, old(state.Now()));
                   if read.None? then r == None else r == Some(read.value.0) && state.Now() == read.value.1
  {
    hide SpecOk, SpecBytes, PlanOk, IsStream, Built, SectionShape, SectionOk, SectionBytes, TablesFor, Mode, Serves;
    hide Plans, SafeTables, Read, ModesByte;
    var tables := DecodeTables(data, modes, state, on, s);
    if on {
      ReadIs(s, state.Now());
    }
    if tables.None? {
      return None;
    }
    var t, stream := tables.value.0, data[tables.value.1..];
    if on {
      PlanAhead(s, state.Now(), t, stream);
    }
    var decoded := DecodeBitstream(stream, t, n, if on then s.plan else NoPlan());
    r := None;
    if decoded.Sequences? {
      r := Some(decoded.seqs);
      state.llTable := Some(t.ll);
      state.ofTable := Some(t.of);
      state.mlTable := Some(t.ml);
    }
  }

  lemma ReadIs(s: Section, m: Memory)
    requires s.Sequenced?
    ensures var t := TablesFor(s, m);
      if t.None? then Read(s, m) == None
      else Read(s, m) == Some((s.plan.seqs, Memory(m.tree, Some(t.value.ll), Some(t.value.of), Some(t.value.ml),
                                                   m.offsets)))
  {
    hide TablesFor;
  }

  ghost function NoPlan(): Plan {
    Plan([], Tables(Table([], 0), Table([], 0), Table([], 0)), [], [], [])
  }

  lemma PlanAhead(s: Section, m: Memory, t: Tables, stream: seq<Byte>)
    requires SectionOk(s, m) && s.Sequenced? && TablesFor(s, m) == Some(t) && stream == s.stream
    ensures Plans(s.plan, t, |s.plan.seqs|, stream)
  {
  }

  lemma SectionStarts(s: Section)
    requires SectionShape(s)
    ensures var data, n := SectionBytes(s), if s.Sequenced? then |s.plan.seqs| else 0;
      && data != [] && CountFits(s.width, n) && CountForm(s.width, n) <= data && (data[0] == 0 ==> s.NoSequences?)
      && (s.Sequenced? ==> n > 0)
  {
    hide SpecOk, SpecBytes, PlanOk, IsStream, TablesFor;
  }

  lemma AfterCount(data: seq<Byte>, s: Section)
    requires SectionShape(s) && data == SectionBytes(s) && s.Sequenced?
    ensures s.width < |data| && s.low < 4 && data[s.width] == ModesByte(Mode(s.ll), Mode(s.of), Mode(s.ml), s.low)
    ensures data[s.width + 1..] == SpecBytes(s.ll) + (SpecBytes(s.of) + (SpecBytes(s.ml) + s.stream))
  {
    hide SpecOk, SpecBytes, PlanOk, IsStream, TablesFor, CountForm;
    var count := CountForm(s.width, |s.plan.seqs|);
    assert |count| == s.width;
  }

  // ----- the block -----

  ghost predicate PackedAhead(block: seq<Byte>, literals: Literals, section: Option<Section>, m: Memory) {
    && LiteralsOk(literals, m) && (section.Some? ==> SectionShape(section.value))
    && (ReadLiterals(literals, m).Some? && section.Some? ==>
        SectionOk(section.value, ReadLiterals(literals, m).value.1))
    && block == PackedBytes(literals, section)
  }

  /** Decodes a block onto the output: its sequences are executed from wherever the blocks before
      it have left the recent offsets. */
  method DecodeCompressedBlock(block: seq<Byte>, output0: seq<Byte>, state: BlockState, ghost literals: Literals,
                               ghost section: Option<Section>)
      returns (output: Option<seq<Byte>>)
    requires state.Ok()
    modifies state
    ensures state.Ok()
    ensures PackedAhead(block, literals, section, old(state.Now())) ==>
              var r := PlayBlock(PackedBlock(literals, section), output0, old(state.Now()));
              if r.Some? then output == Some(r.value.0) && state.Now() == r.value.1 else output == None
  {
    hide SpecOk, PlanOk, IsStream, TablesFor, SectionShape, SectionBytes, LiteralsBytes, Execute, Read, Built;
    ghost var on := PackedAhead(block, literals, section, state.Now());
    ghost var s := if section.Some? then section.value else NoSequences(1, []);
    var lits := DecodeLiteralsSection(block, state, literals);
    if lits.None? {
      return None;
    }
    var pos := lits.value.1;
    if on && section.Some? {
      assert block[pos..] == SectionBytes(s);
    }
    if pos >= |block| {
      return Some(output0 + lits.value.0);
    }
    var decoded := DecodeSequencesSection(block[pos..], state, s);
    if decoded.None? {
      return None;
    }
    var done := ExecuteSequences(output0, lits.value.0, decoded.value, state.offsets);
    if done.None? {
      return None;
    }
    state.offsets := done.value.1;
    return Some(done.value.0);
  }

  /** Reading the three bytes of a block header. */
  lemma BlockHeader(data: seq<Byte>, pos: nat, h: nat, rest: seq<Byte>)
    requires pos <= |data| && Le(h, 3) + rest <= data[pos..] && h < 0x100_0000
    ensures pos + 3 + |rest| <= |data| && FromLe(data[pos..pos + 3]) == h
    ensures data[pos + 3..pos + 3 + |rest|] == rest
  {
    hide Le, FromLe;
    Sizes();
    LeRoundTrip(h, 3);
    var ahead := data[pos..];
    assert ahead[..3 + |rest|] == Le(h, 3) + rest;
    assert ahead[..3] == data[pos..pos + 3] == Le(h, 3);
    assert ahead[3..3 + |rest|] == data[pos + 3..pos + 3 + |rest|];
  }

  function KindOf(b: Block): nat { if b.RawBlock? then 0 else if b.RunBlock? then 1 else 2 }

  ghost function Payload(b: Block): seq<Byte>
    requires BlockShape(b)
  {
    match b
    case RawBlock(bytes) => bytes
    case RunBlock(byte, _) => [byte]
    case PackedBlock(literals, section) => PackedBytes(literals, section)
  }

  /** What a block looks like to the decoder. */
  lemma BlockAhead(data: seq<Byte>, pos: nat, b: Block, last: bool)
    requires BlockShape(b) && pos <= |data| && BlockBytes(b, last) <= data[pos..]
    ensures var payload := Payload(b);
      var size := if b.RunBlock? then b.n else |payload|;
      && pos + 3 + |payload| <= |data| && |BlockBytes(b, last)| == 3 + |payload| && size < 0x20_0000
      && FromLe(data[pos..pos + 3]) == Flag(last) + 2 * KindOf(b) + 8 * size
      && data[pos + 3..pos + 3 + |payload|] == payload
  {
    hide Le, FromLe, PackedBytes;
    var payload := Payload(b);
    var size := if b.RunBlock? then b.n else |payload|;
    BlockHeader(data, pos, Flag(last) + 2 * KindOf(b) + 8 * size, payload);
  }

  /** Decodes one block onto the output. */
  method DecodeBlock(data: seq<Byte>, pos0: nat, output0: seq<Byte>, state: BlockState, ghost on: bool,
                     ghost b: Block, ghost isLast: bool) returns (r: Option<(seq<Byte>, nat, bool)>)
    requires state.Ok() && pos0 <= |data|
    requires on ==> BlockOk(b, state.Now()) && BlockBytes(b, isLast) <= data[pos0..]
    modifies state
    ensures state.Ok()
    ensures r.Some? ==> pos0 < r.value.1 <= |data|
    ensures on ==> var played := PlayBlock(b, output0, old(state.Now()));
                   if played.None? then r == None
                   else && r == Some((played.value.0, pos0 + |BlockBytes(b, isLast)|, isLast))
                        && state.Now() == played.value.1
  {
    hide Le, FromLe, PackedBytes, Execute, Read, BlockBytes, SectionOk;
    if on {
      BlockAhead(data, pos0, b, isLast);
    }
    if pos0 + 3 > |data| {
      return None;
    }
    var h := FromLe(data[pos0..pos0 + 3]);
    var pos := pos0 + 3;
    var last, kind, size := h % 2 != 0, h / 2 % 4, h / 8;
    if pos + size > |data| && kind != 1 {
      return None;
    }
    if kind == 0 {
      return Some((output0 + data[pos..pos + size], pos + size, last));
    } else if kind == 1 {
      if pos >= |data| {
        return None;
      }
      return Some((output0 + Rep<Byte>(data[pos], size), pos + 1, last));
    } else if kind == 2 {
      var output := DecodeCompressedBlock(data[pos..pos + size], output0, state,
                                          if on then b.literals else RawLiterals(1, []), if on
                                              then b.section else None);
      if output.None? {
        return None;
      }
      return Some((output.value, pos + size, last));
    } else {
      return None;
    }
  }

  ghost predicate RestAhead(bs: seq<Block>, k: nat, output: seq<Byte>, m: Memory, rest: seq<Byte>, data: seq<Byte>) {
    k < |bs| && BlocksOk(bs, k, output, m) && BlocksAre(bs, k, output, m, rest, data)
  }

  method DecodeBlocks(data: seq<Byte>, pos0: nat, output0: seq<Byte>, ghost bs: seq<Block>, ghost rest: seq<Byte>)
      returns (r: Option<(seq<Byte>, nat)>)
    requires pos0 <= |data|
    ensures r.Some? ==> pos0 < r.value.1 <= |data|
    ensures RestAhead(bs, 0, output0, FRESH, rest, data[pos0..]) ==>
              var played := PlayBlocks(bs, 0, output0, FRESH);
              if played.None? then r == None else r.Some? && r.value.0 == played.value && data[r.value.1..] == rest
  {
    hide BlockOk, BlockBytes, PlayBlock;
    ghost var on := RestAhead(bs, 0, output0, FRESH, rest, data[pos0..]);
    var state := new BlockState();
    var output, pos := output0, pos0;
    ghost var k := 0;
    while true
      invariant state.Ok() && fresh(state) && pos0 <= pos <= |data|
      invariant on ==> RestAhead(bs, k, output, state.Now(), rest, data[pos..])
      invariant on ==> PlayBlocks(bs, k, output, state.Now()) == PlayBlocks(bs, 0, output0, FRESH)
      decreases |data| - pos
    {
      ghost var m, before, p := state.Now(), output, pos;
      var block := DecodeBlock(data, pos, output, state, on, if on then bs[k] else RawBlock([]), k + 1 == |bs|);
      if block.None? {
        return None;
      }
      output, pos := block.value.0, block.value.1;
      if on {
        NextBlock(bs, k, before, m, rest, data, p);
      }
      if block.value.2 {
        return Some((output, pos));
      }
      k := k + 1;
    }
  }

  /** Behind a block that could be decoded come the others. */
  lemma NextBlock(bs: seq<Block>, k: nat, output: seq<Byte>, m: Memory, rest: seq<Byte>, data: seq<Byte>, pos: nat)
    requires pos <= |data| && RestAhead(bs, k, output, m, rest, data[pos..]) && PlayBlock(bs[k], output, m).Some?
    ensures BlockOk(bs[k], m)
    ensures var next, at := PlayBlock(bs[k], output, m).value, pos + |BlockBytes(bs[k], k + 1 == |bs|)|;
      && at <= |data| && PlayBlocks(bs, k, output, m) == PlayBlocks(bs, k + 1, next.0, next.1)
      && if k + 1 == |bs| then data[at..] == rest && PlayBlocks(bs, k, output, m) == Some(next.0)
         else RestAhead(bs, k + 1, next.0, next.1, rest, data[at..])
  {
    hide BlockShape, SectionOk, BlockBytes, PlayBlock;
    var head := BlockBytes(bs[k], k + 1 == |bs|);
    assert data[pos..][|head|..] == data[pos + |head|..];
    var next := PlayBlock(bs[k], output, m).value;
    if k + 1 == |bs| {
      assert PlayBlocks(bs, k + 1, next.0, next.1) == Some(next.0);
      assert BlocksAre(bs, k + 1, next.0, next.1, rest, data[pos + |head|..]);
    }
  }

  // ----- the frame header -----

  datatype FrameHeader = FrameHeader(window: nat, contentSize: Option<nat>, hasChecksum: bool, size: nat)

  ghost predicate HeaderAhead(data: seq<Byte>, offset: nat, h: Header) {
    offset <= |data| && HeaderOk(h) && HeaderBytes(h) <= data[offset..]
  }

  /** Magic number, descriptor, and the fields the descriptor announces. */
  method ParseHeader(data: seq<Byte>, offset: nat, ghost h: Header) returns (r: Option<FrameHeader>)
    requires offset <= |data|
    ensures r.Some? ==> 5 <= r.value.size && offset + r.value.size <= |data|
    ensures HeaderAhead(data, offset, h) ==>
              r == if Accepted(h)
                  then Some(FrameHeader(Window(h), ContentSize(h), h.checksum, |HeaderBytes(h)|)) else None
  {
    hide Le, FromLe, HeaderBytes, HeaderOk;
    ghost var on := HeaderAhead(data, offset, h);
    if on {
      HeaderParts(data, offset, h);
      FlagsBack(h);
    }
    if offset + 5 > |data| {
      return None;
    }
    var descriptor: nat := data[offset + 4];
    var pos := offset + 5;
    var fcsFlag, single, checksum, dictFlag := descriptor / 64, descriptor / 32 % 2 != 0, descriptor / 4 % 2 != 0,
        descriptor % 4;
    var window: nat := 0;
    if !single {
      if pos >= |data| {
        return None;
      }
      var desc: nat := data[pos];
      pos := pos + 1;
      var base := Pow2(10 + desc / 8);
      window := base + base / 8 * (desc % 8);
    }
    var dictSize := if dictFlag == 3 then 4 else dictFlag;
    if pos + dictSize > |data| {
      return None;
    }
    var dictId := FromLe(data[pos..pos + dictSize]);
    pos := pos + dictSize;
    if dictId != 0 {
      return None;
    }
    var fcsSize := if fcsFlag == 0 then (if single then 1 else 0) else if fcsFlag == 1 then 2 else if fcsFlag
        == 2 then 4 else 8;
    if pos + fcsSize > |data| {
      return None;
    }
    var contentSize: Option<nat> := None;
    if fcsSize > 0 {
      var v := FromLe(data[pos..pos + fcsSize]);
      contentSize := Some(if fcsSize == 2 then v + 256 else v);
    }
    pos := pos + fcsSize;
    var actual := if single then (if contentSize.Some? then contentSize.value else 0) else window;
    if actual > MAX_WINDOW {
      return None;
    }
    return Some(FrameHeader(actual, contentSize, checksum, pos - offset));
  }

  /** The flags of a descriptor. */
  lemma FlagsBack(h: Header)
    requires HeaderOk(h)
    ensures var d: nat := Descriptor(h);
      && d / 64 == h.sizeFlag && (d / 32 % 2 != 0 <==> h.single) && (d / 4 % 2 != 0 <==> h.checksum)
      && d % 4 == h.dictFlag
  {
    var s, c := Flag(h.single), Flag(h.checksum);
    var d: nat := Descriptor(h);
    DivUnique(d, 64, h.sizeFlag, s * 32 + h.spare * 8 + c * 4 + h.dictFlag);
    DivUnique(d, 32, h.sizeFlag * 2 + s, h.spare * 8 + c * 4 + h.dictFlag);
    DivUnique(h.sizeFlag * 2 + s, 2, h.sizeFlag, s);
    DivUnique(d, 4, h.sizeFlag * 16 + s * 8 + h.spare * 2 + c, h.dictFlag);
    DivUnique(h.sizeFlag * 16 + s * 8 + h.spare * 2 + c, 2, h.sizeFlag * 8 + s * 4 + h.spare, c);
  }

  /** What the parser finds, and where. */
  lemma HeaderParts(data: seq<Byte>, offset: nat, h: Header)
    requires HeaderAhead(data, offset, h)
    ensures var dict := offset + 5 + (if h.single then 0 else 1);
      var size := dict + DictWidth(h);
      && offset + |HeaderBytes(h)| == size + SizeWidth(h) <= |data| && data[offset + 4] == Descriptor(h)
      && (!h.single ==> data[offset + 5] == h.window)
      && FromLe(data[dict..size]) == h.dictId
      && FromLe(data[size..size + SizeWidth(h)]) + SizeBase(h) == h.size
  {
    hide Le, FromLe, HeaderBytes;
    var b := HeaderBytes(h);
    HeaderLayout(h);
    var d := 5 + if h.single then 0 else 1;
    var z := d + DictWidth(h);
    AheadAt(data, offset, b, d, z);
    AheadAt(data, offset, b, z, z + SizeWidth(h));
    LeRoundTrip(h.dictId, DictWidth(h));
    LeRoundTrip(h.size - SizeBase(h), SizeWidth(h));
  }

  /** A part of what is ahead. */
  lemma AheadAt(data: seq<Byte>, offset: nat, b: seq<Byte>, i: nat, j: nat)
    requires offset <= |data| && b <= data[offset..] && i <= j <= |b|
    ensures offset + |b| <= |data| && data[offset + i..offset + j] == b[i..j]
    ensures forall k :: 0 <= k < |b| ==> data[offset + k] == b[k]
  {
    assert data[offset..][..|b|] == b;
    forall k | 0 <= k < |b| ensures data[offset + k] == b[k] {
      assert data[offset..][k] == b[k];
    }
  }

  lemma HeaderLayout(h: Header)
    requires HeaderOk(h)
    ensures var b, d := HeaderBytes(h), 5 + if h.single then 0 else 1;
      var z := d + DictWidth(h);
      && |b| == z + SizeWidth(h) && b[4] == Descriptor(h) && (!h.single ==> b[5] == h.window)
      && b[d..z] == Le(h.dictId, DictWidth(h)) && b[z..z + SizeWidth(h)] == Le(h.size - SizeBase(h), SizeWidth(h))
  {
    hide Le;
    var w := if h.single then [] else [h.window];
    FiveParts(Le(MAGIC, 4), [Descriptor(h)], w, Le(h.dictId, DictWidth(h)), Le(h.size - SizeBase(h), SizeWidth(h)));
  }

  lemma FiveParts(a: seq<Byte>, b: seq<Byte>, c: seq<Byte>, d: seq<Byte>, e: seq<Byte>)
    ensures var all, i, j := a + (b + (c + (d + e))), |a| + |b| + |c|, |a| + |b| + |c| + |d|;
      && |all| == j + |e| && all[|a|..|a| + |b|] == b && all[|a| + |b|..i] == c && all[i..j] == d
          && all[j..j + |e|] == e
  {
  }

  // ----- frames -----

  /** Header, blocks, checksum, content size. */
  method DecodeFrame(data: seq<Byte>, offset: nat, output0: seq<Byte>, hash: seq<Byte> -> nat, ghost f: Frame,
                     ghost rest: seq<Byte>)
      returns (r: Option<(seq<Byte>, nat)>)
    requires offset <= |data|
    ensures r.Some? ==> 0 < r.value.1 && offset + r.value.1 <= |data|
    ensures FrameAhead(f, output0, data[offset..], rest) ==>
              var played := PlayFrame(f, output0, hash);
              if played.None? then r == None
              else r.Some? && r.value.0 == played.value && data[offset + r.value.1..] == rest
  {
    hide Le, FromLe, HeaderBytes, HeaderOk, BlocksOk, BlocksAre, PlayBlocks, Accepted;
    ghost var on := FrameAhead(f, output0, data[offset..], rest);
    var header := ParseHeader(data, offset, f.header);
    if header.None? {
      return None;
    }
    if on {
      assert data[offset..][header.value.size..] == data[offset + header.value.size..];
    }
    var blocks := DecodeBlocks(data, offset + header.value.size, output0, f.blocks, SumBytes(f) + rest);
    if blocks.None? {
      return None;
    }
    var output, pos := blocks.value.0, blocks.value.1;
    var produced := output[if |output0| <= |output| then |output0| else |output|..];
    if on {
      BlocksGrow(f.blocks, 0, output0, FRESH);
      SumAhead(data, pos, f, rest);
    }
    if header.value.hasChecksum {
      if pos + 4 > |data| {
        return None;
      }
      if FromLe(data[pos..pos + 4]) != hash(produced) % 0x1_0000_0000 {
        return None;
      }
      pos := pos + 4;
    }
    if header.value.contentSize.Some? && header.value.contentSize.value != |produced| {
      return None;
    }
    return Some((output, pos - offset));
  }

  lemma SumAhead(data: seq<Byte>, pos: nat, f: Frame, rest: seq<Byte>)
    requires pos <= |data| && data[pos..] == SumBytes(f) + rest && f.sum < 0x1_0000_0000
    ensures f.header.checksum ==>
              pos + 4 <= |data| && FromLe(data[pos..pos + 4]) == f.sum && data[pos + 4..] == rest
    ensures !f.header.checksum ==> data[pos..] == rest
  {
    hide Le, FromLe;
    if f.header.checksum {
      Sizes();
      LeRoundTrip(f.sum, 4);
      assert data[pos..][..4] == data[pos..pos + 4];
      assert data[pos..][4..] == data[pos + 4..];
    }
  }

  /** Blocks only append. */
  lemma BlockGrows(b: Block, output: seq<Byte>, m: Memory)
    requires PlayBlock(b, output, m).Some?
    ensures output <= PlayBlock(b, output, m).value.0
  {
    if b.PackedBlock? && b.section.Some? {
      var read := Read(b.section.value, m);
      ExecuteLength(read.value.0, ReadLiterals(b.literals, m).value.0, output, m.offsets, m.offsets);
    }
  }

  lemma {:induction false} BlocksGrow(bs: seq<Block>, k: nat, output: seq<Byte>, m: Memory)
    ensures PlayBlocks(bs, k, output, m).Some? ==> output <= PlayBlocks(bs, k, output, m).value
    decreases |bs| - k
  {
    hide PlayBlock;
    if k < |bs| && PlayBlock(bs[k], output, m).Some? {
      var next := PlayBlock(bs[k], output, m).value;
      BlockGrows(bs[k], output, m);
      BlocksGrow(bs, k + 1, next.0, next.1);
    }
  }

  // ----- frames in a row -----

  /** The magic number a part starts with. */
  lemma PartStarts(data: seq<Byte>, start: seq<Byte>, magic: nat)
    requires Le(magic, 4) + start <= data && magic < 0x1_0000_0000
    ensures |data| >= 4 && FromLe(data[..4]) == magic && start <= data[4..]
  {
    hide Le, FromLe;
    Sizes();
    LeRoundTrip(magic, 4);
    assert data[..4 + |start|] == Le(magic, 4) + start;
    assert data[..4] == data[..4 + |start|][..4];
    assert data[4..][..|start|] == data[..4 + |start|][4..];
  }

  lemma FrameStarts(f: Frame, output: seq<Byte>, data: seq<Byte>, rest: seq<Byte>)
    requires FrameAhead(f, output, data, rest)
    ensures |data| >= 4 && FromLe(data[..4]) == MAGIC
  {
    hide Le, FromLe, BlocksOk, BlocksAre;
    var b := HeaderBytes(f.header);
    assert b == Le(MAGIC, 4) + b[4..];
    PartStarts(data, b[4..], MAGIC);
  }

  lemma SkippedStarts(low: nat, payload: seq<Byte>, data: seq<Byte>)
    requires low < 16 && |payload| < 0x1_0000_0000 && SkippedBytes(low, payload) <= data
    ensures |data| >= 8 + |payload| && FromLe(data[..4]) == SKIPPABLE_MAGIC + low && FromLe(data[4..8]) == |payload|
    ensures |SkippedBytes(low, payload)| == 8 + |payload|
  {
    hide Le, FromLe;
    PartStarts(data, Le(|payload|, 4) + payload, SKIPPABLE_MAGIC + low);
    PartStarts(data[4..], payload, |payload|);
    assert data[4..][..4] == data[4..8];
  }

  /** Frames one after another; skippable frames are stepped over. */
  method Decompress(data: seq<Byte>, hash: seq<Byte> -> nat, ghost ps: seq<Part>) returns (r: Option<seq<Byte>>)
    ensures PartsAre(ps, 0, [], hash, data) ==> r == PlayParts(ps, 0, [], hash)
  {
    hide Le, FromLe, FrameAhead, PlayFrame, SkippedBytes;
    ghost var on := PartsAre(ps, 0, [], hash, data);
    var output: seq<Byte> := [];
    var pos: nat := 0;
    ghost var k := 0;
    assert data[0..] == data;
    while pos < |data|
      invariant on ==> pos <= |data| && PartsAre(ps, k, output, hash, data[pos..])
      invariant on ==> PlayParts(ps, k, output, hash) == PlayParts(ps, 0, [], hash)
      decreases if pos <= |data| then |data| - pos else 0
    {
      ghost var ahead := data[pos..];
      ghost var rest: seq<Byte> := [];
      if on && k < |ps| {
        rest := PartAhead(ps, k, output, hash, ahead);
        assert pos + 4 <= |data| && data[pos..pos + 4] == ahead[..4];
      }
      if pos + 4 > |data| {
        break;
      }
      var magic := FromLe(data[pos..pos + 4]);
      if magic == 0xFD2F_B528 {
        var frame := DecodeFrame(data, pos, output, hash, if on && k < |ps|
            && ps[k].Content? then ps[k].f else NoFrame(),
                                 rest);
        if frame.None? {
          return None;
        }
        output := frame.value.0;
        pos := pos + frame.value.1;
      } else if 0x184D_2A50 <= magic <= 0x184D_2A5F {
        if pos + 8 > |data| {
          return None;
        }
        if on {
          assert data[pos + 4..pos + 8] == ahead[4..8];
          assert data[pos..][8 + |ps[k].payload|..] == data[pos + 8 + |ps[k].payload|..];
        }
        pos := pos + 8 + FromLe(data[pos + 4..pos + 8]);
      } else {
        return None;
      }
      k := k + 1;
    }
    if on && k < |ps| {
      var rest := PartAhead(ps, k, output, hash, data[pos..]);
    }
    return Some(output);
  }

  ghost function NoFrame(): Frame {
    Frame(Header(false, false, 0, 0, 0, 0, 0, 0), [], 0)
  }

  /** What is ahead of the decoder, and what comes after it. */
  lemma PartAhead(ps: seq<Part>, k: nat, output: seq<Byte>, hash: seq<Byte> -> nat, data: seq<Byte>)
      returns (rest: seq<Byte>)
    requires k < |ps| && PartsAre(ps, k, output, hash, data)
    ensures |data| >= 4
    ensures ps[k].Content? ==>
              && FromLe(data[..4]) == MAGIC && FrameAhead(ps[k].f, output, data, rest)
              && var played := PlayFrame(ps[k].f, output, hash);
                 (played.Some? ==> PartsAre(ps, k + 1, played.value, hash, rest))
    ensures ps[k].Skipped? ==>
              && |data| >= 8 + |ps[k].payload| && FromLe(data[4..8]) == |ps[k].payload|
              && 0x184D_2A50 <= FromLe(data[..4]) <= 0x184D_2A5F
              && PartsAre(ps, k + 1, output, hash, data[8 + |ps[k].payload|..])
  {
    hide Le, FromLe, FrameAhead, PlayFrame, SkippedBytes;
    rest := [];
    match ps[k]
    case Content(f) =>
      rest :| FrameAhead(f, output, data, rest) &&
              (PlayFrame(f, output, hash).Some? ==> PartsAre(ps, k + 1, PlayFrame(f, output, hash).value, hash, rest));
      FrameStarts(f, output, data, rest);
    case Skipped(low, payload) =>
      SkippedStarts(low, payload, data);
  }
}
