/** Inputs of the zstd encoder that do not come back: one that cannot be compressed because a
    histogram clamps, and one of two blocks whose second is decoded from other recent offsets than
    it was encoded from. */
module ZstdExamples {
  import opened Bytes
  import opened Lz77
  import opened ZstdFse
  import opened ZstdNormalize
  import opened ZstdCodes
  import opened ZstdLz
  import opened ZstdSequences
  import opened ZstdTables
  import opened ZstdFormat
  import opened ZstdBlock
  import opened ZstdFrame

  // ----- runs of new bytes -----

  /** For each code a run of the next byte value, three longer than the code and one more. */
  function RunsOf(codes: seq<nat>): (r: seq<Byte>)
    requires |codes| <= 256
  {
    if codes == [] then []
    else
      var last := |codes| - 1;
      RunsOf(codes[..last]) + Rep<Byte>(last, codes[last] + 4)
  }

  function SeqsOf(codes: seq<nat>): (r: seq<Sequence>)
    ensures |r| == |codes| && forall i :: 0 <= i < |r| ==> r[i] == Sequence(1, codes[i] + 3, 1)
  {
    seq(|codes|, i requires 0 <= i < |codes| => Sequence(1, codes[i] + 3, 1))
  }

  function BytesUpTo(n: nat): (r: seq<Byte>)
    requires n <= 256
    ensures |r| == n && forall i :: 0 <= i < n ==> r[i] as int == i
  {
    seq(n, i requires 0 <= i < n => i as Byte)
  }

  /** The bytes of run `k`, and those before it. */
  lemma {:induction false} RunAt(codes: seq<nat>, k: nat)
    requires |codes| <= 256 && k < |codes|
    ensures var from, to := |RunsOf(codes[..k])|, |RunsOf(codes[..k + 1])|;
      && to == from + codes[k] + 4 <= |RunsOf(codes)|
      && (forall q :: from <= q < to ==> RunsOf(codes)[q] as int == k)
      && (forall q :: 0 <= q < from ==> (RunsOf(codes)[q] as int) < k)
      && (to < |RunsOf(codes)| ==> RunsOf(codes)[to] as int != k)
    decreases |codes|
  {
    var last := |codes| - 1;
    if k < last {
      var c := codes[..last];
      RunAt(c, k);
      assert c[..k] == codes[..k] && c[..k + 1] == codes[..k + 1];
    } else {
      assert codes[..k + 1] == codes;
      SmallerBefore(codes[..last]);
    }
  }

  lemma {:induction false} SmallerBefore(codes: seq<nat>)
    requires |codes| <= 256
    ensures forall q :: 0 <= q < |RunsOf(codes)| ==> (RunsOf(codes)[q] as int) < |codes|
    decreases |codes|
  {
    if codes != [] {
      SmallerBefore(codes[..|codes| - 1]);
    }
  }

  // ----- the search on such data -----

  /** A byte that has not occurred before starts no match, whatever the hash table holds. */
  lemma NewByte(data: seq<Byte>, st: Finder)
    requires FinderOk(data, st) && st.pos < |data|
    requires forall c :: 0 <= c < st.pos ==> data[c] != data[st.pos]
    ensures BestAt(data, st).len == 0
    ensures Round(data, st) == st.(pos := st.pos + 1, table := Enter(data, st.table, st.pos))
  {
    hide Repeats;
    var litLen := st.pos - st.litStart;
    assert RepeatBest(data, st.pos, litLen, st.h, 0) == Match(0, 0);
    assert RepeatBest(data, st.pos, litLen, st.h, 1) == Match(0, 0);
    assert RepeatBest(data, st.pos, litLen, st.h, 2) == Match(0, 0);
    assert RepeatBest(data, st.pos, litLen, st.h, 3) == Match(0, 0);
  }

  lemma Differ(data: seq<Byte>, c: nat, pos: nat)
    requires c < pos < |data| && data[c] != data[pos]
    ensures Common(data, c, pos) == 0
  {
  }

  lemma RunRepeats(data: seq<Byte>, p: nat, n: nat)
    requires 1 <= p && p + n <= |data| && n >= 1 && forall q :: p - 1 <= q < p + n ==> data[q] == data[p - 1]
    requires p + n < |data| ==> data[p + n] != data[p - 1]
    ensures Common(data, p - 1, p) == n
  {
    CommonIs(data, p - 1, p, n);
  }

  /** The second byte of a run of a new value repeats the first, to the end of the run. */
  lemma SecondByte(data: seq<Byte>, st: Finder, n: nat)
    requires FinderOk(data, st) && st.litStart + 1 == st.pos && st.h == START && n >= 3 && st.pos + n <= |data|
    requires forall q :: st.litStart <= q < st.pos + n ==> data[q] == data[st.litStart]
    requires forall c :: 0 <= c < st.litStart ==> data[c] != data[st.litStart]
    requires st.pos + n < |data| ==> data[st.pos + n] != data[st.litStart]
    ensures BestAt(data, st) == Match(n, 1)
  {
    hide Common, Repeats, Hash4;
    var p := st.pos;
    RunRepeats(data, p, n);
    forall c | 0 <= c < p - 1 ensures Common(data, c, p) == 0 {
      Differ(data, c, p);
    }
    assert RepeatBest(data, p, 1, START, 0) == Match(0, 0);
    assert RepeatBest(data, p, 1, START, 1) == Match(n, 1);
    assert RepeatBest(data, p, 1, START, 2) == Match(n, 1);
    assert RepeatBest(data, p, 1, START, 3) == Match(n, 1);
    NotLonger(data, st, Match(n, 1));
  }

  /** A match taken from the hash table would have to be longer. */
  lemma NotLonger(data: seq<Byte>, st: Finder, best: Match)
    requires FinderOk(data, st) && st.pos + best.len <= |data|
    requires forall c :: 0 <= c < st.pos ==> Common(data, c, st.pos) <= best.len
    ensures HashBest(data, st.pos, st.table, best) == best
  {
  }

  /** One run: its first byte is a literal, the rest a match at distance 1. */
  lemma OneRun(data: seq<Byte>, st: Finder, n: nat) returns (next: Finder)
    requires FinderOk(data, st) && st.litStart == st.pos && st.h == START && n >= 3 && st.pos + 1 + n <= |data|
    requires forall q :: st.pos <= q < st.pos + 1 + n ==> data[q] == data[st.pos]
    requires forall c :: 0 <= c < st.pos ==> data[c] != data[st.pos]
    requires st.pos + 1 + n < |data| ==> data[st.pos + 1 + n] != data[st.pos]
    ensures FinderOk(data, next) && Greedy(data, st) == Greedy(data, next)
    ensures next.litStart == next.pos == st.pos + 1 + n && next.h == START
    ensures next.seqs == st.seqs + [Sequence(1, n, 1)] && next.literals == st.literals + [data[st.pos]]
  {
    hide BestAt, Enter, EnterAll;
    NewByte(data, st);
    var mid := Round(data, st);
    SecondByte(data, mid, n);
    next := Round(data, mid);
    assert data[st.pos..st.pos + 1] == [data[st.pos]];
  }

  /** From the start of run `k` on. */
  lemma {:induction false} RunsFrom(codes: seq<nat>, k: nat, st: Finder)
    requires |codes| <= 256 && k <= |codes| && FinderOk(RunsOf(codes), st)
    requires st.litStart == st.pos == |RunsOf(codes[..k])| && st.h == START
    requires st.seqs == SeqsOf(codes[..k]) && st.literals == BytesUpTo(k)
    ensures var last := Greedy(RunsOf(codes), st);
      last.litStart == |RunsOf(codes)| && last.seqs == SeqsOf(codes) && last.literals == BytesUpTo(|codes|)
    decreases |codes| - k
  {
    hide RunsOf, Greedy;
    if k == |codes| {
      assert codes[..k] == codes;
      AllSearched(RunsOf(codes), st);
    } else {
      var data := RunsOf(codes);
      RunAt(codes, k);
      var next := OneRun(data, st, codes[k] + 3);
      assert SeqsOf(codes[..k + 1]) == SeqsOf(codes[..k]) + [Sequence(1, codes[k] + 3, 1)];
      assert BytesUpTo(k + 1) == BytesUpTo(k) + [data[st.pos]];
      RunsFrom(codes, k + 1, next);
    }
  }

  lemma AllSearched(data: seq<Byte>, st: Finder)
    requires FinderOk(data, st) && st.pos == |data|
    ensures Greedy(data, st) == st
  {
  }

  lemma NoRuns()
    ensures RunsOf([]) == [] && SeqsOf([]) == [] && BytesUpTo(0) == []
  {
  }

  /** Any match length codes, up to 256 of them, are found in some data. */
  lemma RunsFound(codes: seq<nat>)
    requires |codes| <= 256
    ensures Matches(RunsOf(codes)) == (SeqsOf(codes), BytesUpTo(|codes|))
  {
    hide Greedy, RunsOf;
    var data := RunsOf(codes);
    NoRuns();
    assert codes[..0] == [] && codes[..|codes|] == codes;
    if codes != [] {
      RunAt(codes, |codes| - 1);
      RunsFrom(codes, 0, AtStart());
      var st := Greedy(data, AtStart());
      assert st.literals + data[st.litStart..] == st.literals;
    }
  }

  // ----- an input that cannot be compressed -----

  /** The skewed histogram, as match length codes: each code as often as it says. */
  function SkewedCodes(): (r: seq<nat>) {
    Expand(Rep<int>(17, 13) + Rep<int>(1, 20))
  }

  lemma SkewedCount(c: nat)
    ensures Count<nat>(SkewedCodes(), c) == if c < 33 then Skewed()[c] else 0
  {
    ExpandCount(Rep<int>(17, 13) + Rep<int>(1, 20), c);
  }

  lemma SkewedRange(i: nat)
    requires i < |SkewedCodes()|
    ensures SkewedCodes()[i] < 33
  {
    ExpandSymbols(Rep<int>(17, 13) + Rep<int>(1, 20), i);
  }

  lemma SkewedSize()
    ensures |SkewedCodes()| == 241
  {
    hide Expand;
    var p := Rep<int>(17, 13) + Rep<int>(1, 20);
    TotalSplit(p);
    NoneReserved(p);
    TotalRep(17, 13, []);
    assert [] + Rep<int>(17, 13) == Rep<int>(17, 13);
    assert Total([]) == 0;
    TotalRep(1, 20, Rep<int>(17, 13));
  }

  lemma {:induction false} NoneReserved(p: seq<int>)
    requires forall k :: 0 <= k < |p| ==> p[k] >= 0
    ensures Tops(p) == 0
    decreases |p|
  {
    if p != [] {
      NoneReserved(p[..|p| - 1]);
    }
  }

  lemma {:induction false} LaterBaselines(code: nat)
    requires 33 <= code < 53
    ensures |ML_BASELINES| == 53 && ML_BASELINES[code] >= 37
    decreases code
  {
    hide ML_BASELINES;
    MlContiguous(code - 1);
    MlContiguous(code);
    MlContiguous(32);
    if code == 33 {
      MlRange(0);
      FirstRange();
    } else {
      LaterBaselines(code - 1);
    }
  }

  lemma FirstRange()
    ensures |ML_EXTRA_BITS| == 53 && ML_EXTRA_BITS[32] == 1 && Pow2(1) == 2
  {
  }

  /** Lengths 3 to 35 have the codes 0 to 32. */
  lemma SmallLengths(code: nat)
    requires code <= 32
    ensures MlCodeOf(code + 3) == code
  {
    hide ML_BASELINES, ML_EXTRA_BITS;
    MlContiguous(32);
    if code == 32 {
      var c := Searched(ML_BASELINES, 35, 52, 32);
      if c > 32 {
        LaterBaselines(c);
      }
    }
  }

  lemma SkewedMlCodes()
    ensures MlCodes(SeqsOf(SkewedCodes())) == SkewedCodes()
  {
    hide MlCodeOf, SkewedCodes;
    var codes := SkewedCodes();
    forall i | 0 <= i < |codes| ensures MlCodes(SeqsOf(codes))[i] == codes[i] {
      SkewedRange(i);
      SmallLengths(codes[i]);
    }
  }

  /** A small input, found to consist of 241 matches whose length codes have the skewed histogram. */
  lemma ClampedInput()
    ensures |SkewedCodes()| == 241 && |RunsOf(SkewedCodes())| <= 36 * 241
    ensures !Compressible(RunsOf(SkewedCodes()))
  {
    hide SkewedCodes, RunsOf, Corrected, MlCodes, LlCodes, OfCodes;
    var codes := SkewedCodes();
    SkewedSize();
    RunsFound(codes);
    SkewedMlCodes();
    SkewedClamps();
    RunsSmall(codes);
  }

  lemma {:induction false} RunsSmall(codes: seq<nat>)
    requires |codes| <= 256 && forall i :: 0 <= i < |codes| ==> codes[i] < 33
    ensures |RunsOf(codes)| <= 36 * |codes|
    decreases |codes|
  {
    if codes != [] {
      RunsSmall(codes[..|codes| - 1]);
    }
  }

  lemma SkewedClamps()
    ensures forall i :: 0 <= i < |SkewedCodes()| ==> SkewedCodes()[i] < 33
    ensures MaxOf(SkewedCodes()) < 53 && !Codable(HistOf(SkewedCodes(), 53), MaxOf(SkewedCodes()), ML_MAX_AL)
  {
    hide SkewedCodes, Corrected, Normalized, Distinct, Sum, MaxOf;
    var codes := SkewedCodes();
    var hist := HistOf(codes, 53);
    SkewedSize();
    forall i | 0 <= i < |codes| ensures codes[i] < 33 {
      SkewedRange(i);
    }
    SkewedCount(32);
    var i := NthCell(codes, 32, 0);
    assert MaxOf(codes) == 32;
    forall c | 0 <= c < 33 ensures hist[..33][c] == Skewed()[c] {
      SkewedCount(c);
    }
    assert hist[..33] == Skewed();
    DistinctTwo(Skewed(), 0, 1);
    ClampHappens();
    SmallPowers();
    assert Log2(32) == 5 by { Log2Is(32, 5); }
  }

  // ----- two blocks that do not come back -----

  /** The bytes 0, 1, 2, 3 over and over. */
  function Quarters(n: nat): (r: seq<Byte>)
    ensures |r| == n && forall i :: 0 <= i < n ==> r[i] as int == i % 4
  {
    seq(n, i => (i % 4) as Byte)
  }

  /** Four literals, then one match at the recent offset 4, which becomes the latest. */
  lemma QuartersFound(n: nat)
    requires n >= 7
    ensures Matches(Quarters(n)) == ([Sequence(4, n - 4, 2)], [0, 1, 2, 3])
  {
    hide BestAt, Enter, EnterAll;
    var data := Quarters(n);
    var s0 := AtStart();
    var s1 := Round(data, s0);
    NewByte(data, s0);
    NewByte(data, s1);
    var s2 := Round(data, s1);
    NewByte(data, s2);
    var s3 := Round(data, s2);
    NewByte(data, s3);
    var s4 := Round(data, s3);
    FourBack(data, s4, n - 4);
    var s5 := Round(data, s4);
    assert Greedy(data, s4) == Greedy(data, s5) == s5;
    assert Greedy(data, s2) == Greedy(data, s4);
    assert Greedy(data, s0) == Greedy(data, s2);
    assert data[0..4] == [0, 1, 2, 3];
    assert s5.seqs == [] + [Sequence(4, n - 4, 2)] == [Sequence(4, n - 4, 2)];
    assert s5.literals + data[s5.litStart..] == [0, 1, 2, 3];
  }

  lemma FourBack(data: seq<Byte>, st: Finder, n: nat)
    requires data == Quarters(n + 4) && n >= 3
    requires FinderOk(data, st) && st.litStart == 0 && st.pos == 4 && st.h == START
    ensures BestAt(data, st) == Match(n, 2)
  {
    assert Repeats(data, 4, 4, n);
    CommonIs(data, 0, 4, n);
    assert Common(data, 3, 4) == 0;
    assert RepeatBest(data, 4, 4, START, 0) == Match(0, 0);
    assert RepeatBest(data, 4, 4, START, 1) == Match(0, 0);
    assert RepeatBest(data, 4, 4, START, 2) == Match(n, 2);
    assert RepeatBest(data, 4, 4, START, 3) == Match(n, 2);
    assert Common(data, 1, 4) == 0 && Common(data, 2, 4) == 0;
    NotLonger(data, st, Match(n, 2));
  }

  /** A section of one sequence is short: three tables of one symbol, and only extra bits. */
  lemma OneSequenceSize(s: Sequence)
    requires SeqOk(s)
    ensures AllCodable([s]) && SectionSize([s]) <= 15
  {
    hide SectionSize, AllCodable;
    OneCodable(s);
    OneSize(s);
  }

  lemma OneCodable(s: Sequence)
    requires SeqOk(s)
    ensures AllCodable([s]) && CodesFit([s])
    ensures LlChoice([s]).al == 0 && OfChoice([s]).al == 0 && MlChoice([s]).al == 0
    ensures LlChoice([s]).mode == OfChoice([s]).mode == MlChoice([s]).mode == MODE_RLE
  {
    hide LlCodeOf, MlCodeOf, OfCodeOf, Distinct;
    OfCodeSmall(s.offset);
    var seqs := [s];
    assert LlCodes(seqs) == [LlCodeOf(s.litLen)] && OfCodes(seqs) == [OfCodeOf(s.offset)];
    assert MlCodes(seqs) == [MlCodeOf(s.matchLen)];
    OneDistinct(LlCodeOf(s.litLen), 36);
    OneDistinct(OfCodeOf(s.offset), 32);
    OneDistinct(MlCodeOf(s.matchLen), 53);
  }

  lemma OneDistinct(code: nat, size: nat)
    requires code < size
    ensures MaxOf([code]) == code && Distinct(HistOf([code], size)[..code + 1]) <= 1
  {
    var codes: seq<nat> := [code];
    var hist := HistOf(codes, size);
    assert codes[..0] == [];
    forall c | 0 <= c < code ensures hist[..code][c] == 0 {
      assert Count<nat>(codes, c) == 0;
    }
    NoneDistinct(hist[..code]);
    assert hist[..code + 1][..code] == hist[..code];
  }

  lemma {:induction false} NoneDistinct(hist: seq<nat>)
    requires forall c :: 0 <= c < |hist| ==> hist[c] == 0
    ensures Distinct(hist) == 0
    decreases |hist|
  {
    if hist != [] {
      NoneDistinct(hist[..|hist| - 1]);
    }
  }

  lemma OneSize(s: Sequence)
    requires SeqOk(s) && CodesFit([s])
    requires LlChoice([s]).al == 0 && OfChoice([s]).al == 0 && MlChoice([s]).al == 0
    requires LlChoice([s]).mode == OfChoice([s]).mode == MlChoice([s]).mode == MODE_RLE
    ensures SectionSize([s]) <= 15
  {
    hide LlChoice, OfChoice, MlChoice, Stream, PlanOk, TableFrom, StatesOf;
    var p := ChosenPlan([s]);
    if PlanOk(p) {
      TableLog0(LlChoice([s]));
      TableLog0(OfChoice([s]));
      TableLog0(MlChoice([s]));
      OneStream(p, s);
    }
  }

  lemma TableLog0(c: Choice)
    requires c.al == 0
    ensures TableFrom(c).log == 0
  {
  }

  lemma OneStream(p: Plan, s: Sequence)
    requires PlanOk(p) && p.seqs == [s] && SeqOk(s) && p.t.ll.log == p.t.of.log == p.t.ml.log == 0
    ensures |Stream(p)| <= 63
  {
    hide LlCodeOf, MlCodeOf, OfCodeOf, Pow2, ToBits;
    OfCodeSmall(s.offset);
    ExtraBitsSmall(LlCodeOf(s.litLen), MlCodeOf(s.matchLen));
    PlanStates(p);
    assert AfterExtra(p, 0) == [];
    assert |Body(p, 0)| <= 63;
  }

  lemma ExtraBitsSmall(l: nat, m: nat)
    requires l < 36 && m < 53
    ensures LL_EXTRA_BITS[l] <= 16 && |ML_EXTRA_BITS| == 53 && ML_EXTRA_BITS[m] <= 16
  {
  }

  /** Both blocks can be coded, and are written compressed; the first leaves other recent offsets
      than the second was encoded from, and the second comes out wrong. */
  lemma StaleInput()
    ensures var input := Quarters(MAX_BLOCK_SIZE) + RunsOf([20]);
      AllCompressible(input) && !Faithful(input, 0, History(1, 4, 8))
  {
    hide Quarters, RunsOf, Matches, Compressible, Shrinks, PlayChunk, Faithful, Start, NumBlocks, Chunk;
    var first, second := Quarters(MAX_BLOCK_SIZE), RunsOf([20]);
    var input := first + second;
    SecondIs(second);
    TwoChunks(input, first, second);
    FirstBlock(first);
    SecondBlock(first, second);
    FaithfulTwice(input, first, second);
  }

  /** What coming out right means for two blocks. */
  lemma FaithfulTwice(input: seq<Byte>, first: seq<Byte>, second: seq<Byte>)
    requires NumBlocks(input) == 2 && Chunk(input, 0) == first && Chunk(input, 1) == second && input == first + second
    requires Start(input, 0) == 0 && Start(input, 1) == |first| && Start(input, 2) == |input|
    ensures Faithful(input, 0, START) ==>
              && PlayChunk(first, [], START).Some?
              && var h := PlayChunk(first, [], START).value.1;
                 PlayChunk(second, first, h).Some? && PlayChunk(second, first, h).value.0 == input
  {
    hide PlayChunk, Start, NumBlocks, Chunk;
    assert input[..0] == [] && input[..|first|] == first && input[..|input|] == input;
    if Faithful(input, 0, START) {
      assert Faithful(input, 1, PlayChunk(first, [], START).value.1);
    }
  }

  lemma SecondIs(second: seq<Byte>)
    requires second == RunsOf([20])
    ensures second == Rep<Byte>(0, 24)
    ensures Matches(second) == ([Sequence(1, 23, 1)], [0])
  {
    hide Matches;
    var codes: seq<nat> := [20];
    assert codes[..0] == [] && RunsOf(codes[..0]) == [];
    RunsFound(codes);
    assert SeqsOf(codes) == [Sequence(1, 23, 1)] && BytesUpTo(1) == [0];
  }

  lemma TwoChunks(input: seq<Byte>, first: seq<Byte>, second: seq<Byte>)
    requires input == first + second && |first| == MAX_BLOCK_SIZE && 0 < |second| <= MAX_BLOCK_SIZE
    ensures NumBlocks(input) == 2 && Chunk(input, 0) == first && Chunk(input, 1) == second
    ensures Start(input, 0) == 0 && Start(input, 1) == |first| && Start(input, 2) == |input|
  {
  }

  lemma FirstBlock(first: seq<Byte>)
    requires first == Quarters(MAX_BLOCK_SIZE)
    ensures Compressible(first) && Shrinks(first)
    ensures PlayChunk(first, [], START).Some? ==> PlayChunk(first, [], START).value.1 == History(4, 1, 8)
  {
    hide Matches, Quarters, SectionSize, AllCodable;
    QuartersFound(MAX_BLOCK_SIZE);
    var s := Sequence(4, MAX_BLOCK_SIZE - 4, 2);
    OneSequenceSize(s);
    var start := Decoded([], 0, START);
    assert [s][..0] == [];
    assert ExecuteAll([], [0, 1, 2, 3], start) == Some(start);
  }

  lemma SecondBlock(first: seq<Byte>, second: seq<Byte>)
    requires first == Quarters(MAX_BLOCK_SIZE) && second == Rep<Byte>(0, 24)
    requires Matches(second) == ([Sequence(1, 23, 1)], [0])
    ensures Compressible(second) && Shrinks(second)
    ensures PlayChunk(second, first, History(4, 1, 8)).Some? ==>
              PlayChunk(second, first, History(4, 1, 8)).value.0 != first + second
  {
    hide Matches, Quarters, SectionSize, AllCodable, CopyBack;
    var s, lits: seq<Byte>, h := Sequence(1, 23, 1), [0], History(4, 1, 8);
    OneSequenceSize(s);
    OneSequence(first, lits, s, h);
    var out := CopyBack(first + lits, 4, 23);
    CopyStarts(first + lits, 4, 23);
    assert (first + lits)[|first + lits| - 4] == first[MAX_BLOCK_SIZE - 3];
    assert first[MAX_BLOCK_SIZE - 3] as int == 1;
    assert (first + second)[MAX_BLOCK_SIZE + 1] == second[1] == 0;
  }

  /** The first byte copied. */
  lemma {:induction false} CopyStarts(output: seq<Byte>, d: nat, n: nat)
    requires 1 <= d <= |output| && n >= 1
    ensures CopyBack(output, d, n)[|output|] == output[|output| - d]
    decreases n
  {
    if n > 1 {
      CopyStarts(output, d, n - 1);
    } else {
      assert CopyBack(output, d, 0) == output;
    }
  }
}
