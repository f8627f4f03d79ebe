/** Huffman-coded literals of zstd (section 3.1.1.3.1 and 4.2 of RFC 8878): the code that weights
    stand for, one or four streams of codewords, and the weights themselves, directly or FSE-coded. */
module ZstdLiterals {
  import opened Bytes
  import opened LittleEndian
  import opened ZstdBits
  import opened ZstdHuffman
  import ZstdFse
  import ZstdDescription
  import ZstdSequences
  import ZstdTables

  // ----- the code -----

  /** All weights, the implied last one among them, and the longest code length. */
  datatype Tree = Tree(weights: seq<nat>, max: nat)

  /** The tree that weights without the implied last one stand for. There is one at most. */
  ghost function TreeOf(weights: seq<nat>): Option<Tree> {
    if Completable(weights) then
      var v: nat, max: nat :| Completed(weights, v, max);
      Some(Tree(weights + [v], max))
    else None
  }

  ghost predicate Serves(t: HuffTable, tree: Tree) {
    t.maxBits == tree.max && TableIs(t, tree.weights)
  }

  predicate HasCode(tree: Tree, s: nat) {
    s < |tree.weights| && 0 < tree.weights[s] <= tree.max
  }

  function CodeLength(tree: Tree, s: nat): nat
    requires HasCode(tree, s)
  {
    tree.max + 1 - tree.weights[s]
  }

  /** The number of its block among the blocks of that size. */
  function CodeNumber(tree: Tree, s: nat): nat
    requires HasCode(tree, s)
  {
    Quot(Base(tree.weights, s), Size(tree.weights[s]))
  }

  function Codeword(tree: Tree, s: nat): (r: seq<Bit>)
    requires HasCode(tree, s)
    ensures |r| == CodeLength(tree, s)
  {
    ToBits(CodeNumber(tree, s), CodeLength(tree, s))
  }

  predicate AllCoded(tree: Tree, symbols: seq<Byte>) {
    forall i :: 0 <= i < |symbols| ==> HasCode(tree, symbols[i])
  }

  function Codewords(tree: Tree, symbols: seq<Byte>): seq<Bit>
    requires AllCoded(tree, symbols)
  {
    if symbols == [] then [] else Codeword(tree, symbols[0]) + Codewords(tree, symbols[1..])
  }

  lemma {:induction false} LeadingBits(u: nat, k: nat, n: nat)
    requires n <= k
    ensures ToBits(u, k)[..n] == ToBits(Quot(u, Pow2(k - n)), n)
    decreases k
  {
    if n < k {
      LeadingBits(u / 2, k - 1, n);
      DivDiv(u, k - 1 - n);
      assert ToBits(u, k)[..n] == ToBits(u / 2, k - 1)[..n];
    }
  }

  lemma QuotBound(u: nat, k: nat, n: nat)
    requires n <= k && u < Pow2(k)
    ensures Quot(u, Pow2(k - n)) < Pow2(n)
  {
    Pow2Add(n, k - n);
    CanDivide(u, Pow2(k - n), Pow2(n));
  }

  lemma ScaledQuot(u: nat, q: nat, p: nat)
    requires q > 0 && p > 0
    ensures q * p > 0 && Quot(u * p, q * p) == Quot(u, q)
  {
    var c, r := u / q, u % q;
    MulAdd(c * q, r, p);
    MulAssoc(c, q, p);
    Times(r, q, p);
    DivUnique(u * p, q * p, c, r * p);
  }

  /** Zeros behind a number do not change its leading bits. */
  lemma PaddedQuot(u: nat, k: nat, max: nat, n: nat)
    requires n <= k <= max && u < Pow2(k)
    ensures u * Pow2(max - k) < Pow2(max) && Quot(u * Pow2(max - k), Pow2(max - n)) == Quot(u, Pow2(k - n))
  {
    hide Pow2, Quot;
    Pow2Add(k, max - k);
    Pow2Add(k - n, max - k);
    Times(u, Pow2(k), Pow2(max - k));
    ScaledQuot(u, Pow2(k - n), Pow2(max - k));
  }

  lemma Times(a: nat, b: nat, p: nat)
    requires a < b && p >= 1
    ensures a * p < b * p
  {
    MulMonotone(a + 1, b, p);
    MulAdd(a, 1, p);
  }

  lemma CodeInRange(tree: Tree, s: nat)
    requires Complete(tree.weights, tree.max) && HasCode(tree, s)
    ensures Size(tree.weights[s]) == Pow2(tree.max - CodeLength(tree, s))
    ensures InBlock(tree.weights, s, Base(tree.weights, s)) && Base(tree.weights, s) < Pow2(tree.max)
    ensures CodeNumber(tree, s) < Pow2(CodeLength(tree, s))
  {
    hide Base, Pow2, Used;
    BlockEnds(tree.weights, s);
    UsedMonotone(tree.weights, tree.weights[s] + 1, tree.max + 1);
    EndsAt(tree.weights, tree.max);
    QuotBound(Base(tree.weights, s), tree.max, CodeLength(tree, s));
  }

  /** Any bits that start with a codeword, padded with zeros, look up its symbol. */
  lemma CodewordFound(t: HuffTable, tree: Tree, s: nat, u: nat, k: nat)
    requires Serves(t, tree) && HasCode(tree, s) && CodeLength(tree, s) <= k <= tree.max && u < Pow2(k)
    requires ToBits(u, k)[..CodeLength(tree, s)] == Codeword(tree, s)
    ensures u * Pow2(tree.max - k) < Pow2(tree.max)
    ensures DecodeSymbol(t, u * Pow2(tree.max - k)) == Entry(s, CodeLength(tree, s))
  {
    hide Base, Pow2, ToBits, Quot, DecodeSymbol, Complete, Size;
    var n, max := CodeLength(tree, s), tree.max;
    CodeInRange(tree, s);
    LeadingBits(u, k, n);
    QuotBound(u, k, n);
    BitsRoundTrip(CodeNumber(tree, s), n);
    BitsRoundTrip(Quot(u, Pow2(k - n)), n);
    PaddedQuot(u, k, max, n);
    BlockIsPrefix(tree.weights, max, s, Base(tree.weights, s), u * Pow2(max - k));
    InTable(t, u * Pow2(max - k));
  }

  // ----- streams of codewords -----

  /** Looks up the bits ahead; at the end of the stream, with zeros behind them. */
  method NextSymbol(reader: BitReader, t: HuffTable, ghost tree: Tree, ghost on: bool, ghost symbols: seq<Byte>)
      returns (symbol: Byte)
    requires reader.Ok() && Serves(t, tree)
    requires on ==> symbols != [] && AllCoded(tree, symbols) && reader.Remaining() == Codewords(tree, symbols)
    modifies reader`bitPos
    ensures reader.Ok()
    ensures on ==> symbol == symbols[0] && AllCoded(tree, symbols[1..])
                   && reader.Remaining() == Codewords(tree, symbols[1..])
  {
    hide Pow2, ToBits, Codeword, Codewords, TableIs, DecodeSymbol, AllCoded;
    var remaining := reader.BitsLeft();
    var k := if remaining >= t.maxBits then t.maxBits else remaining;
    var peeked := reader.PeekBits(k);
    TableLong(t, tree);
    var entry := DecodeSymbol(t, peeked.value * Pow2(t.maxBits - k));
    if on {
      NextCodeword(tree, symbols, reader.Remaining(), k, peeked.value);
      CodewordFound(t, tree, symbols[0], peeked.value, k);
    }
    reader.Consume(if entry.numBits <= remaining then entry.numBits else remaining);
    symbol := entry.symbol % 256;
  }

  method Decompress1Stream(t: HuffTable, data: seq<Byte>, regenSize: nat, ghost tree: Tree, ghost symbols: seq<Byte>)
      returns (r: Option<seq<Byte>>)
    requires Serves(t, tree)
    ensures r.Some? ==> |r.value| == regenSize
    ensures regenSize == |symbols| && AllCoded(tree, symbols) && IsStream(data, Codewords(tree, symbols)) ==>
              r == Some(symbols)
  {
    hide Codewords, IsStream, Serves, AllCoded;
    ghost var on := regenSize == |symbols| && AllCoded(tree, symbols) && IsStream(data, Codewords(tree, symbols));
    var init := Open(data);
    if init.None? {
      return None;
    }
    var reader := init.value;
    var output: seq<Byte> := [];
    assert symbols[0..] == symbols;
    while |output| < regenSize
      invariant reader.Ok() && |output| <= regenSize
      invariant on ==> output == symbols[..|output|] && AllCoded(tree, symbols[|output|..])
                       && reader.Remaining() == Codewords(tree, symbols[|output|..])
    {
      var symbol := NextSymbol(reader, t, tree, on, if on then symbols[|output|..] else []);
      if on {
        Last(symbols, |output|);
      }
      output := output + [symbol];
    }
    assert on ==> symbols[..|output|] == symbols;
    return Some(output);
  }

  // ----- four streams -----

  /** Where part `i` of four starts, each but the last a quarter, rounded up. */
  function QuarterStart(n: nat, i: nat): (p: nat)
    ensures p <= n
  {
    if i * ((n + 3) / 4) < n then i * ((n + 3) / 4) else n
  }

  lemma QuartersAdd(n: nat)
    ensures QuarterStart(n, 0) == 0 && QuarterStart(n, 4) == n
    ensures forall i: nat :: i < 4 ==> QuarterStart(n, i) <= QuarterStart(n, i + 1)
    ensures var seg := (n + 3) / 4;
      && (forall i: nat :: i < 3 ==> QuarterStart(n, i + 1) - QuarterStart(n, i) == Least(seg, Monus(n, seg * i)))
      && QuarterStart(n, 4) - QuarterStart(n, 3) == Monus(n, seg * 3)
  {
  }

  function Least(a: nat, b: nat): nat { if a < b then a else b }

  function Monus(a: nat, b: nat): nat { if a < b then 0 else a - b }

  function Quarter(symbols: seq<Byte>, i: nat): seq<Byte>
    requires i < 4
  {
    QuartersAdd(|symbols|);
    symbols[QuarterStart(|symbols|, i)..QuarterStart(|symbols|, i + 1)]
  }

  lemma NextQuarter(symbols: seq<Byte>, i: nat)
    requires i < 4
    ensures var n := |symbols|;
      && QuarterStart(n, i) <= QuarterStart(n, i + 1)
          && |Quarter(symbols, i)| == QuarterStart(n, i + 1) - QuarterStart(n, i)
      && symbols[..QuarterStart(n, i)] + Quarter(symbols, i) == symbols[..QuarterStart(n, i + 1)]
  {
    hide QuarterStart;
    QuartersAdd(|symbols|);
  }

  /** Each stream has the codewords of its part; the bytes of an empty part are not looked at. */
  ghost predicate FourStreams(tree: Tree, streams: seq<seq<Byte>>, symbols: seq<Byte>) {
    && |streams| == 4 && AllCoded(tree, symbols) && (forall i :: 0 <= i < 3 ==> |streams[i]| < 0x1_0000)
    && forall i :: 0 <= i < 4 ==> Streamed(tree, streams[i], Quarter(symbols, i))
  }

  ghost predicate Streamed(tree: Tree, stream: seq<Byte>, symbols: seq<Byte>) {
    symbols == [] || (AllCoded(tree, symbols) && IsStream(stream, Codewords(tree, symbols)))
  }

  /** Three sizes, then the streams. */
  function FourBytes(streams: seq<seq<Byte>>): seq<Byte>
    requires |streams| == 4
  {
    Le(|streams[0]|, 2) + Le(|streams[1]|, 2) + Le(|streams[2]|, 2)
    + streams[0] + streams[1] + streams[2] + streams[3]
  }

  method SplitStreams(data: seq<Byte>, ghost streams: seq<seq<Byte>>) returns (r: Option<seq<seq<Byte>>>)
    ensures r.Some? ==> |r.value| == 4
    ensures |streams| == 4 && (forall i :: 0 <= i < 3 ==> |streams[i]| < 0x1_0000) && data == FourBytes(streams) ==>
              r == Some(streams)
  {
    hide FourBytes, FromLe;
    if |streams| == 4 && (forall i :: 0 <= i < 3 ==> |streams[i]| < 0x1_0000) {
      FourRead(streams);
    }
    if |data| < 6 {
      return None;
    }
    var start2 := 6 + FromLe(data[0..2]);
    var start3 := start2 + FromLe(data[2..4]);
    var start4 := start3 + FromLe(data[4..6]);
    if start4 > |data| {
      return None;
    }
    return Some([data[6..start2], data[start2..start3], data[start3..start4], data[start4..]]);
  }

  method QuarterSizes(n: nat) returns (sizes: seq<nat>)
    ensures |sizes| == 4
    ensures forall i: nat :: i < 4 ==> QuarterStart(n, i) <= QuarterStart(n, i + 1) == QuarterStart(n, i) + sizes[i]
  {
    hide QuarterStart;
    QuartersAdd(n);
    var seg := (n + 3) / 4;
    sizes := [Least(seg, n), Least(seg, Monus(n, seg)), Least(seg, Monus(n, seg * 2)), Monus(n, seg * 3)];
  }

  method Decompress4Streams(t: HuffTable, data: seq<Byte>, regenSize: nat, ghost tree: Tree,
                            ghost streams: seq<seq<Byte>>, ghost symbols: seq<Byte>)
      returns (r: Option<seq<Byte>>)
    requires Serves(t, tree)
    ensures r.Some? ==> |r.value| == regenSize
    ensures regenSize == |symbols| && FourStreams(tree, streams, symbols) && data == FourBytes(streams) ==>
              r == Some(symbols)
  {
    hide Codewords, IsStream, Serves, AllCoded, FourBytes, QuarterStart, Quarter;
    ghost var on := regenSize == |symbols| && FourStreams(tree, streams, symbols) && data == FourBytes(streams);
    var split := SplitStreams(data, streams);
    if split.None? {
      return None;
    }
    var parts := split.value;
    var sizes := QuarterSizes(regenSize);
    QuartersAdd(regenSize);
    var output: seq<Byte> := [];
    var i: nat := 0;
    while i < 4
      invariant i <= 4 && |output| == QuarterStart(regenSize, i)
      invariant on ==> output == symbols[..|output|]
    {
      if on {
        NextQuarter(symbols, i);
        assert Streamed(tree, parts[i], Quarter(symbols, i));
      }
      if sizes[i] > 0 {
        var decoded := Decompress1Stream(t, parts[i], sizes[i], tree, if on then Quarter(symbols, i) else []);
        if decoded.None? {
          return None;
        }
        output := output + decoded.value;
      }
      i := i + 1;
    }
    assert on ==> symbols[..|output|] == symbols;
    return Some(output);
  }

  lemma FourRead(streams: seq<seq<Byte>>)
    requires |streams| == 4 && forall i :: 0 <= i < 3 ==> |streams[i]| < 0x1_0000
    ensures var data, a, b, c := FourBytes(streams), |streams[0]|, |streams[1]|, |streams[2]|;
      && 6 + a + b + c <= |data|
      && FromLe(data[0..2]) == a && FromLe(data[2..4]) == b && FromLe(data[4..6]) == c
      && data[6..6 + a] == streams[0] && data[6 + a..6 + a + b] == streams[1]
      && data[6 + a + b..6 + a + b + c] == streams[2] && data[6 + a + b + c..] == streams[3]
      && [streams[0], streams[1], streams[2], streams[3]] == streams
  {
    hide FromLe, Le;
    Sizes();
    var data, a, b, c := FourBytes(streams), |streams[0]|, |streams[1]|, |streams[2]|;
    LeRoundTrip(a, 2);
    LeRoundTrip(b, 2);
    LeRoundTrip(c, 2);
    assert data[0..2] == Le(a, 2) && data[2..4] == Le(b, 2) && data[4..6] == Le(c, 2);
  }

  lemma Last(symbols: seq<Byte>, i: nat)
    requires i < |symbols|
    ensures symbols[i..][0] == symbols[i] && symbols[i..][1..] == symbols[i + 1..]
    ensures symbols[..i] + [symbols[i]] == symbols[..i + 1]
  {
  }

  lemma TableLong(t: HuffTable, tree: Tree)
    requires Serves(t, tree)
    ensures |t.entries| == Pow2(t.maxBits)
  {
  }

  lemma NextCodeword(tree: Tree, symbols: seq<Byte>, ahead: seq<Bit>, k: nat, u: nat)
    requires symbols != [] && AllCoded(tree, symbols) && ahead == Codewords(tree, symbols)
    requires k == if |ahead| >= tree.max then tree.max else |ahead|
    requires u < Pow2(k) && ahead[..k] == ToBits(u, k)
    ensures var n := CodeLength(tree, symbols[0]);
      && HasCode(tree, symbols[0]) && n <= k && ToBits(u, k)[..n] == Codeword(tree, symbols[0])
      && AllCoded(tree, symbols[1..]) && ahead[n..] == Codewords(tree, symbols[1..])
  {
    hide ToBits, Pow2;
    assert HasCode(tree, symbols[0]);
    var n := CodeLength(tree, symbols[0]);
    assert ahead == Codeword(tree, symbols[0]) + Codewords(tree, symbols[1..]);
    assert |Codeword(tree, symbols[0])| == n;
    assert ahead[..k][..n] == ahead[..n] == Codeword(tree, symbols[0]);
  }

  // ----- the weights -----

  /** The weights but the last: two to a byte, or coded with an FSE table by two states in turn. */
  datatype WeightSpec =
    | DirectWeights(weights: seq<nat>, spare: nat)
    | CodedWeights(weights: seq<nat>, header: seq<Byte>, probs: seq<int>, al: nat, stream: seq<Byte>, states: seq<nat>)

  predicate Nibble(w: nat) { w < 16 }

  function PairAt(weights: seq<nat>, spare: nat, j: nat): Byte
    requires 2 * j < |weights| && Nibble(spare) && forall i :: 0 <= i < |weights| ==> Nibble(weights[i])
  {
    assert Nibble(weights[2 * j]);
    if 2 * j + 1 < |weights| then
      assert Nibble(weights[2 * j + 1]);
      16 * weights[2 * j] + weights[2 * j + 1]
    else 16 * weights[2 * j] + spare
  }

  /** The first of two weights in the high half of the byte. */
  function Nibbles(weights: seq<nat>, spare: nat): (r: seq<Byte>)
    requires Nibble(spare) && forall i :: 0 <= i < |weights| ==> Nibble(weights[i])
    ensures |r| == (|weights| + 1) / 2
  {
    seq((|weights| + 1) / 2, j requires 0 <= j < (|weights| + 1) / 2 => PairAt(weights, spare, j))
  }

  ghost predicate DirectOk(weights: seq<nat>, spare: nat) {
    1 <= |weights| <= 128 && Nibble(spare) && forall i :: 0 <= i < |weights| ==> Nibble(weights[i])
  }

  /** State `i` has the symbol of weight `i` and reaches state `i + 2`. */
  predicate AtState(t: ZstdFse.Table, weights: seq<nat>, states: seq<nat>, i: nat)
    requires i < |weights| == |states|
  {
    && states[i] < |t.entries| && t.entries[states[i]].symbol == weights[i]
    && (i + 2 < |states| ==> ZstdFse.Reaches(t.entries[states[i]], states[i + 2]))
  }

  predicate Turns(t: ZstdFse.Table, weights: seq<nat>, states: seq<nat>) {
    && 2 <= |weights| == |states| <= MAX_WEIGHTS && (forall i :: 0 <= i < |states| ==> AtState(t, weights, states, i))
    && var e := states[|states| - 2]; e < |t.entries| && t.entries[e].numBits > 0
  }

  /** The steps from state `i` on. */
  function Steps(t: ZstdFse.Table, weights: seq<nat>, states: seq<nat>, i: nat): seq<Bit>
    requires Turns(t, weights, states)
    decreases |states| - i
  {
    if i + 2 >= |states| then []
    else
      assert AtState(t, weights, states, i);
      ZstdSequences.FieldBits(ZstdSequences.StepField(t, states[i], states[i + 2])) + Steps(t, weights, states, i + 1)
  }

  ghost predicate CodedOk(weights: seq<nat>, header: seq<Byte>, probs: seq<int>, al: nat, stream: seq<Byte>,
                          states: seq<nat>)
  {
    && ZstdDescription.Describes(header, probs, al, |header|) && al <= 6 && ZstdDescription.Complete(probs, al, 12)
    && ZstdFse.Closes(probs, al) && 1 <= |header| + |stream| < 128
    && var t := ZstdFse.TableOf(probs, al);
    && Turns(t, weights, states)
    && IsStream(stream, ToBits(states[0], al) + (ToBits(states[1], al) + Steps(t, weights, states, 0)))
  }

  const MAX_WEIGHTS: nat := 255

  ghost predicate WeightsOk(w: WeightSpec) {
    match w
    case DirectWeights(weights, spare) => DirectOk(weights, spare)
    case CodedWeights(weights, header, probs, al, stream, states) => CodedOk(weights, header, probs, al, stream, states)
  }

  ghost function WeightBytes(w: WeightSpec): seq<Byte>
    requires WeightsOk(w)
  {
    match w
    case DirectWeights(weights, spare) => [127 + |weights|] + Nibbles(weights, spare)
    case CodedWeights(_, header, _, _, stream, _) => [|header| + |stream|] + (header + stream)
  }

  method ReadDirect(data: seq<Byte>, ghost weights: seq<nat>, ghost spare: nat) returns (r: Option<(seq<nat>, nat)>)
    requires data != [] && data[0] >= 128
    ensures r.Some? ==> r.value.1 <= |data|
    ensures DirectOk(weights, spare) && [127 + |weights|] + Nibbles(weights, spare) <= data ==>
              r == Some((weights, 1 + |Nibbles(weights, spare)|))
  {
    ghost var on := DirectOk(weights, spare) && [127 + |weights|] + Nibbles(weights, spare) <= data;
    var n: nat := data[0] - 127;
    var numBytes := (n + 1) / 2;
    if 1 + numBytes > |data| {
      return None;
    }
    var read: seq<nat> := [];
    while |read| < n
      invariant |read| <= n
      invariant on ==> n == |weights| && read == weights[..|read|]
    {
      var i := |read|;
      var byte: nat := data[1 + i / 2];
      if on {
        assert byte == Nibbles(weights, spare)[i / 2] == PairAt(weights, spare, i / 2);
        HalfOf(weights, spare, i);
      }
      read := read + [if i % 2 == 0 then byte / 16 else byte % 16];
    }
    assert on ==> weights[..|read|] == weights;
    return Some((read, 1 + numBytes));
  }

  lemma HalfOf(weights: seq<nat>, spare: nat, i: nat)
    requires DirectOk(weights, spare) && i < |weights|
    ensures var byte: nat := PairAt(weights, spare, i / 2);
      (if i % 2 == 0 then byte / 16 else byte % 16) == weights[i]
    ensures weights[..i] + [weights[i]] == weights[..i + 1]
  {
    assert Nibble(weights[i]);
    assert i % 2 == 0 && i + 1 < |weights| ==> Nibble(weights[i + 1]);
  }

  /** What has been read, and the states and bits that are next. */
  ghost predicate OnTrack(t: ZstdFse.Table, weights: seq<nat>, states: seq<nat>, read: seq<nat>, a: nat, b: nat,
                          ahead: seq<Bit>)
  {
    && Turns(t, weights, states) && |read| + 2 <= |states| && read == weights[..|read|]
    && a == states[|read|] && b == states[|read| + 1] && ahead == Steps(t, weights, states, |read|)
  }

  /** The weights of the two states in turn, until the bits do not suffice for the next step. */
  method RunStates(t: ZstdFse.Table, reader: BitReader, a0: nat, b0: nat, ghost on: bool, ghost weights: seq<nat>,
                   ghost states: seq<nat>)
      returns (r: Option<seq<nat>>)
    requires reader.Ok()
    requires on ==> OnTrack(t, weights, states, [], a0, b0, reader.Remaining())
    modifies reader`bitPos
    ensures on ==> r == Some(weights)
  {
    hide Pow2, ToBits, OnTrack, Steps, ZstdFse.Reaches, ZstdSequences.FieldBits, ZstdSequences.StepField;
    var a: nat, b: nat := a0, b0;
    var read: seq<nat> := [];
    while |read| < MAX_WEIGHTS
      invariant reader.Ok() && |read| <= MAX_WEIGHTS
      invariant on ==> OnTrack(t, weights, states, read, a, b, reader.Remaining())
      invariant on ==> |read| < MAX_WEIGHTS
      decreases MAX_WEIGHTS - |read|
    {
      ghost var to, rest := 0, [];
      if on {
        to, rest := AheadOf(t, weights, states, read, a, b, reader.Remaining());
      }
      if a >= |t.entries| || b >= |t.entries| {
        // The original indexes out of bounds.
        return None;
      }
      read := read + [t.entries[a].symbol];
      if reader.BitsLeft() < t.entries[a].numBits {
        return Some(read + [t.entries[b].symbol]);
      }
      var next := ZstdSequences.NextState(t, a, reader, on, to, rest);
      if next.None? {
        return None;
      }
      a, b := b, next.value;
    }
    return None;
  }

  lemma AheadOf(t: ZstdFse.Table, weights: seq<nat>, states: seq<nat>, read: seq<nat>, a: nat, b: nat, ahead: seq<Bit>)
      returns (to: nat, rest: seq<Bit>)
    requires OnTrack(t, weights, states, read, a, b, ahead)
    ensures a < |t.entries| && b < |t.entries|
    ensures var now, e := read + [t.entries[a].symbol], t.entries[a];
      if |ahead| < e.numBits then now + [t.entries[b].symbol] == weights
      else
        && ZstdFse.Reaches(e, to) && ahead == ZstdSequences.FieldBits(ZstdSequences.StepField(t, a, to)) + rest
        && OnTrack(t, weights, states, now, b, to, rest) && |now| < MAX_WEIGHTS
  {
    hide Pow2, ToBits;
    var i := |read|;
    to, rest := 0, [];
    assert AtState(t, weights, states, i) && AtState(t, weights, states, i + 1);
    if i + 2 < |states| {
      to, rest := states[i + 2], Steps(t, weights, states, i + 1);
    }
  }

  // ----- the table of a description -----

  /** The description ahead, and the table of the distribution padded with zeros. */
  lemma DescribedAhead(data: seq<Byte>, w: WeightSpec)
    requires w.CodedWeights? && WeightsOk(w) && data == w.header + w.stream
    ensures ZstdDescription.Describes(data, w.probs, w.al, |w.header|) && ZstdDescription.Complete(w.probs, w.al, 12)
    ensures w.al <= 6 && |w.probs| <= 13 && w.stream != [] && data[|w.header|..] == w.stream
    ensures var padded := w.probs + Rep<int>(0, 13 - |w.probs|);
      ZstdFse.Closes(padded, w.al) && ZstdFse.TableOf(padded, w.al) == ZstdFse.TableOf(w.probs, w.al)
  {
    hide ZstdFse.TableOf, Turns, Steps, Pow2, ToBits, ZstdFse.Total, ZstdFse.Tops, ZstdFse.Expand;
    assert data[..|w.header|] == w.header == w.header[..|w.header|];
    ZstdTables.CompleteShort(w.probs, w.al, 12);
    ZstdFse.PadTable(w.probs, 13 - |w.probs|, w.al);
  }

  /** The stream: the first two states, and the steps. */
  lemma StatesAhead(w: WeightSpec) returns (rest: seq<Bit>)
    requires w.CodedWeights? && WeightsOk(w)
    ensures var t, s := ZstdFse.TableOf(w.probs, w.al), w.states;
      && 2 <= |s| && s[0] < Pow2(w.al) && s[1] < Pow2(w.al)
      && IsStream(w.stream, ToBits(s[0], w.al) + (ToBits(s[1], w.al) + rest))
      && OnTrack(t, w.weights, s, [], s[0], s[1], rest)
  {
    hide ZstdFse.Closes, ZstdFse.TableOf, ZstdDescription.Describes, ZstdDescription.Complete, IsStream, Pow2, ToBits;
    var t := ZstdFse.TableOf(w.probs, w.al);
    assert AtState(t, w.weights, w.states, 0) && AtState(t, w.weights, w.states, 1);
    rest := Steps(t, w.weights, w.states, 0);
  }

  /** The table of the weights, and where the stream starts. */
  method ReadWeightTable(data: seq<Byte>, ghost on: bool, ghost w: WeightSpec) returns (r: Option<(ZstdFse.Table, nat)>)
    requires on ==> w.CodedWeights? && WeightsOk(w) && data == w.header + w.stream
    ensures r.Some? ==> r.value.1 <= |data|
    ensures on ==> r == Some((ZstdFse.TableOf(w.probs, w.al), |w.header|))
  {
    hide ZstdFse.Closes, ZstdFse.TableOf, ZstdDescription.Describes, ZstdDescription.Complete, Pow2, ZstdFse.Total;
    ghost var probs, al, len := if on then w.probs else [], if on then w.al else 0, if on then |w.header| else 0;
    if on {
      DescribedAhead(data, w);
    }
    var read := ZstdDescription.ReadDescription(data, 12, 6, probs, al, len);
    if read.None? || read.value.2 > |data| {
      return None;
    }
    var table := ZstdFse.Build(read.value.0, read.value.1);
    if table.None? {
      return None;
    }
    return Some((table.value, read.value.2));
  }

  /** Coded weights: the description of a distribution, then a stream of two states in turn. */
  method DecompressWeights(data: seq<Byte>, ghost on: bool, ghost w: WeightSpec) returns (r: Option<seq<nat>>)
    requires on ==> w.CodedWeights? && WeightsOk(w) && data == w.header + w.stream
    ensures on ==> r == Some(w.weights)
  {
    hide ZstdFse.Closes, ZstdFse.TableOf, IsStream, OnTrack, Pow2, ToBits, WeightsOk;
    var read := ReadWeightTable(data, on, w);
    if read.None? {
      return None;
    }
    var t, stream := read.value.0, data[read.value.1..];
    ghost var s1, s2, after1, after2 := 0, 0, [], [];
    if on {
      assert stream == w.stream;
      after2 := StatesAhead(w);
      s1, s2, after1 := w.states[0], w.states[1], ToBits(w.states[1], w.al) + after2;
    }
    var init := Open(stream);
    if init.None? {
      return None;
    }
    var reader := init.value;
    var state1 := reader.Take(t.log, on, s1, after1);
    if state1.None? {
      return None;
    }
    var state2 := reader.Take(t.log, on, s2, after2);
    if state2.None? {
      return None;
    }
    r := RunStates(t, reader, state1.value, state2.value, on, if on then w.weights else [],
                   if on then w.states else []);
  }

  /** The weights and how many bytes they took; the first byte tells their form. */
  method ReadWeights(data: seq<Byte>, ghost w: WeightSpec) returns (r: Option<(seq<nat>, nat)>)
    ensures r.Some? ==> r.value.1 <= |data|
    ensures WeightsOk(w) && WeightBytes(w) <= data ==> r == Some((w.weights, |WeightBytes(w)|))
  {
    hide WeightsOk, WeightBytes;
    ghost var on := WeightsOk(w) && WeightBytes(w) <= data;
    if on {
      FirstByte(w, data);
    }
    if data == [] {
      return None;
    }
    if data[0] < 128 {
      var size: nat := data[0];
      if size == 0 || 1 + size > |data| {
        return None;
      }
      var weights := DecompressWeights(data[1..1 + size], on, w);
      return if weights.None? then None else Some((weights.value, 1 + size));
    }
    r := ReadDirect(data, if w.DirectWeights? then w.weights else [], if w.DirectWeights? then w.spare else 0);
  }

  lemma FirstByte(w: WeightSpec, data: seq<Byte>)
    requires WeightsOk(w) && WeightBytes(w) <= data
    ensures data != [] && (data[0] < 128 <==> w.CodedWeights?)
    ensures w.DirectWeights? ==> DirectOk(w.weights, w.spare)
                                 && WeightBytes(w) == [127 + |w.weights|] + Nibbles(w.weights, w.spare)
    ensures w.CodedWeights? ==> 0 < data[0] && 1 + data[0] as int == |WeightBytes(w)| <= |data|
                                && data[1..1 + data[0] as int] == w.header + w.stream
  {
    hide ZstdDescription.Describes, ZstdDescription.Complete, ZstdFse.TableOf, ZstdFse.Closes, Turns, Steps, IsStream;
    assert data[..|WeightBytes(w)|] == WeightBytes(w);
    if w.CodedWeights? {
      assert data[1..|WeightBytes(w)|] == w.header + w.stream;
    }
  }

  /** The decoding table of a tree, if the weights can be completed. */
  method BuildTree(weights: seq<nat>) returns (r: Option<HuffTable>, ghost tree: Tree)
    ensures r.Some? <==> TreeOf(weights).Some?
    ensures r.Some? ==> TreeOf(weights) == Some(tree) && Serves(r.value, tree)
  {
    hide Completed, Complete, TableIs;
    ghost var full: seq<nat>;
    r, full := Build(weights);
    tree := Tree([], 0);
    if r.Some? {
      tree := TreeOf(weights).value;
    }
  }
}
