/** The tables of the sequences section: chosen and described by the encoder from histograms of
    codes, rebuilt by the decoder (section 3.1.1.3.2.1 of RFC 8878). */
module ZstdTables {
  import opened Bytes
  import opened ZstdFse
  import opened ZstdNormalize
  import opened ZstdDescription
  import opened ZstdSequences

  const MODE_PREDEFINED: nat := 0
  const MODE_RLE: nat := 1
  const MODE_FSE: nat := 2
  const MODE_REPEAT: nat := 3

  // ----- histograms -----

  /** `hist` counts the codes, the largest of which is `max`. */
  ghost predicate Counts(hist: seq<nat>, codes: seq<nat>, max: nat) {
    && codes != [] && max < |hist| && max in codes
    && (forall i :: 0 <= i < |codes| ==> codes[i] <= max)
    && forall c :: 0 <= c < |hist| ==> hist[c] == Count<nat>(codes, c)
  }

  function Distinct(hist: seq<nat>): nat {
    if hist == [] then 0 else Distinct(hist[..|hist| - 1]) + (if hist[|hist| - 1] > 0 then 1 else 0)
  }

  /** The first symbol that occurs. */
  function FirstUsed(hist: seq<nat>): (s: nat)
    ensures s < |hist| ==> hist[s] > 0
  {
    if hist == [] || hist[0] > 0 then 0 else 1 + FirstUsed(hist[1..])
  }

  lemma {:induction false} DistinctOne(hist: seq<nat>, a: nat)
    requires a < |hist| && hist[a] > 0
    ensures Distinct(hist) >= 1
    decreases |hist|
  {
    if a < |hist| - 1 {
      DistinctOne(hist[..|hist| - 1], a);
    }
  }

  lemma {:induction false} DistinctTwo(hist: seq<nat>, a: nat, b: nat)
    requires a < b < |hist| && hist[a] > 0 && hist[b] > 0
    ensures Distinct(hist) >= 2
    decreases |hist|
  {
    var last := |hist| - 1;
    if b < last {
      DistinctTwo(hist[..last], a, b);
    } else {
      DistinctOne(hist[..last], a);
    }
  }

  lemma {:induction false} FirstUsedIs(hist: seq<nat>, c: nat)
    requires c < |hist| && hist[c] > 0
    ensures FirstUsed(hist) <= c
    decreases |hist|
  {
    if hist[0] == 0 {
      FirstUsedIs(hist[1..], c - 1);
    }
  }

  lemma {:induction false} CountSome(codes: seq<nat>, i: nat)
    requires i < |codes|
    ensures Count<nat>(codes, codes[i]) > 0
    decreases |codes|
  {
    if i < |codes| - 1 {
      CountSome(codes[..|codes| - 1], i);
    }
  }

  lemma {:induction false} SumHas(counts: seq<nat>, c: nat)
    requires c < |counts|
    ensures counts[c] <= Sum(counts)
    decreases |counts|
  {
    if c < |counts| - 1 {
      SumHas(counts[..|counts| - 1], c);
    }
  }

  /** With one symbol only, every code is that symbol. */
  lemma OneSymbol(hist: seq<nat>, codes: seq<nat>, max: nat, i: nat)
    requires Counts(hist, codes, max) && Distinct(hist[..max + 1]) <= 1 && i < |codes|
    ensures FirstUsed(hist) == codes[i] == max
  {
    CountSome(codes, i);
    var k :| 0 <= k < |codes| && codes[k] == max;
    CountSome(codes, k);
    var h, first := hist[..max + 1], FirstUsed(hist);
    FirstUsedIs(hist, codes[i]);
    if codes[i] < max {
      DistinctTwo(h, codes[i], max);
    }
    if first < max {
      assert h[first] > 0;
      DistinctTwo(h, first, max);
    }
  }

  // ----- the encoder's choice -----

  /** The table log for a histogram. */
  function TableLog(total: nat, maxSym: nat, maxAl: nat): nat {
    var log := if total < 16 then 5 else if total < 64 then 6 else if total < 256 then 7 else 8;
    var minLog := if maxSym < 2 then 1 else Log2(maxSym) + 1;
    if total == 0 then 5
    else
      var m := if log > minLog + 1 then log else minLog + 1;
      if m < maxAl then m else maxAl
  }

  /** The table has more than twice as many cells as there are symbols. */
  lemma TableLogFits(total: nat, maxSym: nat, maxAl: nat)
    requires total > 0 && maxSym < 64 && 8 <= maxAl <= 15
    ensures var log := TableLog(total, maxSym, maxAl);
      5 <= log <= maxAl && 2 * maxSym < Pow2(log) && maxSym + 1 <= Pow2(log)
  {
    var log := TableLog(total, maxSym, maxAl);
    assert Pow2(3) == 8;
    assert Pow2(5) == 32 && Pow2(6) == 64;
    if maxSym >= 2 {
      Log2AtMost(maxSym, 5);
      Pow2Monotone(Log2(maxSym) + 2, log);
      assert Pow2(Log2(maxSym) + 2) == 2 * Pow2(Log2(maxSym) + 1);
    } else {
      Pow2Monotone(3, log);
    }
  }

  function LogFor(hist: seq<nat>, maxSym: nat, maxAl: nat): nat
    requires maxSym < |hist|
  {
    TableLog(Sum(hist[..maxSym + 1]), maxSym, maxAl)
  }

  /** A histogram that can be coded: one symbol only, or no clamped correction. */
  ghost predicate Codable(hist: seq<nat>, maxSym: nat, maxAl: nat)
    requires maxSym < |hist|
  {
    || Distinct(hist[..maxSym + 1]) <= 1
    || (Sum(hist[..maxSym + 1]) > 0 && Corrected(hist[..maxSym + 1], Pow2(LogFor(hist, maxSym, maxAl))) >= 1)
  }

  /** Mode and distribution chosen for a histogram. */
  datatype Choice = Choice(mode: nat, probs: seq<int>, al: nat)

  function ChoiceFor(hist: seq<nat>, maxSym: nat, maxAl: nat): Choice
    requires maxSym < |hist|
  {
    if Distinct(hist[..maxSym + 1]) <= 1 || Sum(hist[..maxSym + 1]) == 0 then
      Choice(MODE_RLE, Single(FirstUsed(hist)), 0)
    else
      var log := LogFor(hist, maxSym, maxAl);
      Choice(MODE_FSE, Normalized(hist[..maxSym + 1], Pow2(log)), log)
  }

  /** The bytes of its description. */
  ghost function HeaderSize(c: Choice): nat {
    if c.mode == MODE_RLE || !Probabilities(c.probs) then 1
    else DescriptionSize(c.probs, c.al)
  }

  function TableFrom(c: Choice): Table {
    if Closes(c.probs, c.al) then TableOf(c.probs, c.al) else Table([], 0)
  }

  /** A table as chosen. */
  ghost predicate Chosen(e: EncTable, probs: seq<int>, al: nat, c: Choice) {
    c == Choice(e.mode, probs, al) && e.table == TableFrom(c) && |e.header| == HeaderSize(c)
  }

  /** The distribution `probs` is described in the header and its table is the one used. */
  ghost predicate TableFor(e: EncTable, maxSymbol: nat, maxAl: nat, probs: seq<int>, al: nat) {
    && Fits(probs, al) && Closes(probs, al) && e.table == TableOf(probs, al)
    && if e.mode == MODE_RLE then al == 0 && |e.header| == 1 && probs == Single(e.header[0])
       else e.mode == MODE_FSE && al <= maxAl && |probs| <= maxSymbol + 1
            && Describes(e.header, probs, al, |e.header|)
  }

  /** The encoder's list of states per symbol. */
  method BuildMap(t: Table, numSymbols: nat) returns (encMap: seq<seq<nat>>)
    requires forall p :: 0 <= p < |t.entries| ==> t.entries[p].symbol < numSymbols
    ensures |encMap| == numSymbols && MapOk(t, encMap)
  {
    encMap := Rep<seq<nat>>([], numSymbols);
    var state: nat := 0;
    while state < |t.entries|
      invariant state <= |t.entries| && |encMap| == numSymbols
      invariant forall s :: 0 <= s < numSymbols ==> encMap[s] == StatesFor(t.entries, state, s)
    {
      var s := t.entries[state].symbol;
      encMap := encMap[s := encMap[s] + [state]];
      state := state + 1;
    }
  }

  lemma SymbolsOfTable(probs: seq<int>, al: nat)
    requires Closes(probs, al)
    ensures forall p :: 0 <= p < |TableOf(probs, al).entries| ==> TableOf(probs, al).entries[p].symbol < |probs|
  {
    forall p | 0 <= p < |TableOf(probs, al).entries| ensures TableOf(probs, al).entries[p].symbol < |probs| {
      TableEntry(probs, al, p);
    }
  }

  method CountDistinct(hist: seq<nat>, maxSym: nat) returns (n: nat)
    requires maxSym < |hist|
    ensures n == Distinct(hist[..maxSym + 1])
  {
    n := 0;
    var i: nat := 0;
    while i <= maxSym
      invariant i <= maxSym + 1 && n == Distinct(hist[..i])
    {
      assert hist[..i + 1][..i] == hist[..i];
      if hist[i] > 0 {
        n := n + 1;
      }
      i := i + 1;
    }
  }

  /** The table of one symbol. */
  method BuildRle(hist: seq<nat>, ghost codes: seq<nat>, maxSym: nat, maxSymbol: nat, maxAl: nat)
      returns (e: EncTable, ghost probs: seq<int>)
    requires Counts(hist, codes, maxSym) && Distinct(hist[..maxSym + 1]) <= 1 && maxSym < 64
    ensures TableFor(e, maxSymbol, maxAl, probs, 0) && Ready(e, codes)
    ensures Chosen(e, probs, 0, ChoiceFor(hist, maxSym, maxAl))
  {
    hide Fits, Closes, TableOf, Single;
    OneSymbol(hist, codes, maxSym, 0);
    var sym := FirstUsed(hist);
    SingleTable(sym);
    var table := Build(Single(sym), 0);
    probs := Single(sym);
    var encMap := BuildMap(table.value, sym + 1);
    var code: Byte := sym;
    e := EncTable(MODE_RLE, [code], table.value, encMap);
    forall i | 0 <= i < |codes| ensures codes[i] < |encMap| && Codes(e.table, codes[i]) {
      OneSymbol(hist, codes, maxSym, i);
      SingleCodes(sym);
    }
    assert Pow2(0) == 1;
  }

  lemma SingleCodes(sym: nat)
    ensures Codes(Table([Entry(sym, 0, 0)], 0), sym)
  {
    var t := Table([Entry(sym, 0, 0)], 0);
    assert Pow2(0) == 1;
    forall target | 0 <= target < |t.entries| ensures HasSource(t, sym, target) {
      assert t.entries[0].symbol == sym && Reaches(t.entries[0], target);
    }
  }

  /** Chooses, describes and builds the table. Nothing comes back where the original panics: when
      the normalized distribution does not fill the table. */
  method BuildEncTable(hist: seq<nat>, ghost codes: seq<nat>, maxSym: nat, maxSymbol: nat, maxAl: nat)
      returns (r: Option<EncTable>, ghost probs: seq<int>, ghost al: nat)
    requires maxSym < |hist| && Counts(hist, codes, maxSym) && maxSym <= maxSymbol < 64 && 8 <= maxAl <= 15
    ensures r.Some? <==> Codable(hist, maxSym, maxAl)
    ensures r.Some? ==> TableFor(r.value, maxSymbol, maxAl, probs, al) && Ready(r.value, codes)
    ensures r.Some? ==> Chosen(r.value, probs, al, ChoiceFor(hist, maxSym, maxAl))
  {
    hide Distinct, Counts, TableFor, Ready, TableOf, Normalized, Corrected, Sum, Pow2, Total, Expand, Tops, Closes;
    hide IsDescription, Describes;
    probs, al := [], 0;
    var distinct := CountDistinct(hist, maxSym);
    if distinct <= 1 {
      var e: EncTable;
      e, probs := BuildRle(hist, codes, maxSym, maxSymbol, maxAl);
      return Some(e), probs, 0;
    }
    ghost var counts := hist[..maxSym + 1];
    TotalPositive(hist, codes, maxSym);
    var total := SumUp(hist, maxSym + 1);
    var log := TableLog(total, maxSym, maxAl);
    TableLogFits(total, maxSym, maxAl);
    var p := NormalizeCounts(hist, maxSym, log);
    Buildable(counts, log);
    FillsUnlessClamped(counts, Pow2(log));
    GoodProbabilities(counts, Pow2(log));
    var header := WriteDescription(p, log);
    if header.None? {
      return None, probs, al;
    }
    ClosesWhenFull(p, log);
    var table := Build(p, log);
    if table.None? {
      return None, probs, al;
    }
    AllOfIt(header.value, p, log);
    DescriptionLength(header.value, p, log);
    probs, al := p, log;
    FitsNow(p, log);
    SymbolsOfTable(p, log);
    var encMap := BuildMap(table.value, |p|);
    var e := EncTable(MODE_FSE, header.value, table.value, encMap);
    ReadyNow(hist, codes, maxSym, counts, p, log, e);
    ForTable(e, maxSymbol, maxAl, p, log);
    return Some(e), p, log;
  }

  lemma FitsNow(p: seq<int>, log: nat)
    requires GoodLog(log) && Total(p) == Pow2(log)
    ensures Fits(p, log) && Closes(p, log)
  {
    FitsOnce(p, log);
  }

  /** Short of twice the cells there are, the walk closes only when the table is full. */
  lemma ClosesWhenFull(p: seq<int>, log: nat)
    requires GoodLog(log) && p != [] && Tops(p) < Pow2(log) && 0 < |Expand(p)| < 2 * (Pow2(log) - Tops(p))
    ensures Closes(p, log) <==> Total(p) == Pow2(log)
  {
    TotalSplit(p);
    OnlyOneRound(|Expand(p)|, High(p, log) + 1);
  }

  lemma OnlyOneRound(placed: nat, round: nat)
    requires 0 < placed < 2 * round
    ensures Divides(round, placed) <==> placed == round
  {
  }

  lemma ForTable(e: EncTable, maxSymbol: nat, maxAl: nat, probs: seq<int>, al: nat)
    requires Fits(probs, al) && Closes(probs, al) && e.table == TableOf(probs, al) && e.mode == MODE_FSE && al <= maxAl
    requires |probs| <= maxSymbol + 1 && Describes(e.header, probs, al, |e.header|)
    ensures TableFor(e, maxSymbol, maxAl, probs, al)
  {
  }

  lemma AllOfIt(header: seq<Byte>, p: seq<int>, al: nat)
    requires IsDescription(header, p, al) && Total(p) <= Pow2(al)
    ensures Describes(header, p, al, |header|)
  {
    assert header[..|header|] == header;
  }

  lemma TotalPositive(hist: seq<nat>, codes: seq<nat>, maxSym: nat)
    requires Counts(hist, codes, maxSym)
    ensures Sum(hist[..maxSym + 1]) > 0
  {
    CountSome(codes, 0);
    SumHas(hist[..maxSym + 1], codes[0]);
  }

  lemma GoodProbabilities(counts: seq<nat>, size: nat)
    requires Sum(counts) > 0 && size >= |counts|
    ensures Probabilities(Normalized(counts, size))
  {
    forall k | 0 <= k < |counts| ensures Normalized(counts, size)[k] >= -1 {
      CellsForAll(counts, size, k);
    }
  }

  /** Every code that occurs has cells, so it can be coded. */
  lemma ReadyNow(hist: seq<nat>, codes: seq<nat>, maxSym: nat, counts: seq<nat>, p: seq<int>, log: nat, e: EncTable)
    requires Counts(hist, codes, maxSym) && counts == hist[..maxSym + 1] && Sum(counts) > 0
    requires Pow2(log) >= |counts| && p == Normalized(counts, Pow2(log)) && Fits(p, log)
    requires Closes(p, log) && e.table == TableOf(p, log) && |e.encMap| == |p| && MapOk(e.table, e.encMap)
    ensures Ready(e, codes)
  {
    hide Normalized, TableOf, Closes, Codes, Sum, Pow2, Count;
    forall i | 0 <= i < |codes| ensures codes[i] < |e.encMap| && Codes(e.table, codes[i]) {
      CountSome(codes, i);
      assert counts[codes[i]] == hist[codes[i]];
      CellsForAll(counts, Pow2(log), codes[i]);
      TableCodes(p, log, codes[i]);
    }
  }

  // ----- the decoder's tables -----

  /** What is fixed for each of the three tables: the predefined distribution and its log, and the largest
      symbol and log a description may have. */
  datatype TableKind = TableKind(probs: seq<int>, al: nat, maxSymbol: nat, maxAl: nat)

  /** How a table is given: the predefined one, one symbol only, by a description, or as before. */
  datatype TableSpec =
    | Predefined
    | OneSymbolOnly(symbol: Byte)
    | ByDescription(header: seq<Byte>, probs: seq<int>, al: nat)
    | AsBefore

  function Mode(s: TableSpec): (m: nat)
    ensures m < 4
  {
    match s
    case Predefined => MODE_PREDEFINED
    case OneSymbolOnly(_) => MODE_RLE
    case ByDescription(_, _, _) => MODE_FSE
    case AsBefore => MODE_REPEAT
  }

  function SpecBytes(s: TableSpec): seq<Byte> {
    match s
    case OneSymbolOnly(symbol) => [symbol]
    case ByDescription(header, _, _) => header
    case _ => []
  }

  ghost predicate SpecOk(s: TableSpec, kind: TableKind) {
    s.ByDescription? ==>
      Describes(s.header, s.probs, s.al, |s.header|) && s.al <= kind.maxAl && Complete(s.probs, s.al, kind.maxSymbol)
  }

  /** The table given, if there is one: a distribution whose walk does not close gives none, nor does the
      table of the block before when there was none. */
  function SpecTable(s: TableSpec, kind: TableKind, prev: Option<Table>): Option<Table> {
    match s
    case Predefined => IfClosed(kind.probs, kind.al)
    case OneSymbolOnly(symbol) => Some(Table([Entry(symbol, 0, 0)], 0))
    case ByDescription(_, probs, al) => IfClosed(probs, al)
    case AsBefore => prev
  }

  function IfClosed(probs: seq<int>, al: nat): Option<Table> {
    if Closes(probs, al) then Some(TableOf(probs, al)) else None
  }

  /** The table of a distribution that a description can give. Whether it is safe to decode with
      is what `TableSafe` says. */
  ghost predicate Described(t: Table, maxSymbol: nat, maxAl: nat) {
    exists probs: seq<int>, al: nat ::
      && |probs| == maxSymbol + 1 && Probabilities(probs) && 5 <= al <= maxAl && Total(probs) <= Pow2(al)
      && Closes(probs, al) && t == TableOf(probs, al)
  }

  /** The table of some distribution that asks for no more cells than there are. */
  ghost predicate Built(t: Table) {
    exists probs: seq<int>, al: nat ::
      GoodLog(al) && probs != [] && Total(probs) <= Pow2(al) && Closes(probs, al) && t == TableOf(probs, al)
  }

  /** Builds or reuses the table for a mode, and says how many bytes its description took. */
  method DecodeSeqTable(data: seq<Byte>, mode: nat, prev: Option<Table>, kind: TableKind, ghost spec: TableSpec)
      returns (r: Option<(Table, nat)>)
    requires GoodLog(kind.al) && kind.maxAl <= 15
    ensures r.Some? ==> r.value.1 <= |data|
    ensures SpecOk(spec, kind) && mode == Mode(spec) && SpecBytes(spec) <= data ==>
              var t := SpecTable(spec, kind, prev);
              r == if t.Some? then Some((t.value, |SpecBytes(spec)|)) else None
    ensures mode == MODE_FSE && r.Some? ==> Described(r.value.0, kind.maxSymbol, kind.maxAl)
    ensures r.Some? && Total(kind.probs) <= Pow2(kind.al) && (prev.Some? ==> Built(prev.value)) ==> Built(r.value.0)
  {
    hide Fits, Closes, TableOf, Describes, Pow2, Total, Complete;
    ghost var on := SpecOk(spec, kind) && mode == Mode(spec) && SpecBytes(spec) <= data;
    if mode == MODE_PREDEFINED {
      var table := Build(kind.probs, kind.al);
      if table.None? {
        return None;
      }
      EmptyRefused(kind.probs, kind.al);
      return Some((table.value, 0));
    } else if mode == MODE_RLE {
      if data == [] {
        return None;
      }
      if on {
        assert data[0] == SpecBytes(spec)[0];
      }
      SingleTable(data[0]);
      SingleTotal(data[0]);
      var table := Build(Single(data[0]), 0);
      return Some((table.value, 1));
    } else if mode == MODE_FSE {
      ghost var probs, al, len := if on then spec.probs else [], if on then spec.al else 0, |SpecBytes(spec)|;
      var read := ReadDescription(data, kind.maxSymbol, kind.maxAl, probs, al, len);
      if on {
        SpecDescribes(data, spec);
        CompleteShort(probs, al, kind.maxSymbol);
        PadCloses(probs, al, kind.maxSymbol + 1 - |probs|);
      }
      if read.None? || read.value.2 > |data| {
        return None;
      }
      var table := Build(read.value.0, read.value.1);
      if table.None? {
        return None;
      }
      return Some((table.value, read.value.2));
    } else if prev.Some? {
      return Some((prev.value, 0));
    } else {
      return None;
    }
  }

  lemma CompleteShort(probs: seq<int>, al: nat, maxSymbol: nat)
    requires Complete(probs, al, maxSymbol)
    ensures |probs| <= maxSymbol + 1 && probs != []
  {
  }

  lemma SpecDescribes(data: seq<Byte>, s: TableSpec)
    requires s.ByDescription? && Describes(s.header, s.probs, s.al, |s.header|) && s.header <= data
    ensures Describes(data, s.probs, s.al, |s.header|)
  {
    assert s.header[..|s.header|] == s.header == data[..|s.header|];
  }

  /** Probabilities of 0 at the end change nothing. */
  lemma PadCloses(probs: seq<int>, al: nat, z: nat)
    requires probs != []
    ensures IfClosed(probs + Rep<int>(0, z), al) == IfClosed(probs, al)
  {
    hide TableOf, Tops, Expand;
    if Closes(probs, al) {
      PadTable(probs, z, al);
    } else {
      PadSymbols(probs, z, Pow2(al));
    }
  }

  lemma SingleTotal(symbol: nat)
    ensures Total(Single(symbol)) <= Pow2(0) && GoodLog(0)
  {
    hide Total;
    SingleTable(symbol);
  }

  lemma EmptyRefused(probs: seq<int>, al: nat)
    requires Closes(probs, al)
    ensures probs != []
  {
  }

  /** How the table of the encoder is given. */
  function SpecFor(e: EncTable, probs: seq<int>, al: nat): TableSpec {
    if e.mode == MODE_RLE && e.header != [] then OneSymbolOnly(e.header[0]) else ByDescription(e.header, probs, al)
  }

  lemma EncoderSpec(e: EncTable, kind: TableKind, probs: seq<int>, al: nat)
    requires TableFor(e, kind.maxSymbol, kind.maxAl, probs, al)
    ensures var s := SpecFor(e, probs, al);
      && SpecOk(s, kind) && Mode(s) == e.mode && SpecBytes(s) == e.header
      && forall prev :: SpecTable(s, kind, prev) == Some(e.table)
  {
    hide TableOf, Closes, Describes;
    if e.mode == MODE_RLE {
      SingleTable(e.header[0]);
    }
  }

  // ----- a table that is not safe -----

  /** Offset codes 1 to 31 with probability -1 and code 0 with none: the walk never moves, and the
      first cell is left for a symbol that has no cells. */
  function Gap(): (r: seq<int>)
    ensures |r| == 32
  {
    [0] + Rep<int>(-1, 31)
  }

  lemma {:induction false} TopsOnly(n: nat)
    ensures Total([0] + Rep<int>(-1, n)) == n && Tops([0] + Rep<int>(-1, n)) == n
    ensures Expand([0] + Rep<int>(-1, n)) == []
    decreases n
  {
    var p := [0] + Rep<int>(-1, n);
    if n == 0 {
      assert p == [0] && p[..0] == [];
    } else {
      TopsOnly(n - 1);
      assert p[..|p| - 1] == [0] + Rep<int>(-1, n - 1);
    }
  }

  lemma GapAccepted()
    ensures Probabilities(Gap()) && Total(Gap()) == 31 && Pow2(5) == 32
    ensures Closes(Gap(), 5) && !Safe(TableOf(Gap(), 5)) && TableOf(Gap(), 5).entries[0] == Entry(0, 6, 65504)
  {
    hide TableOf, Closes, Symbols, Total, Tops, Expand;
    TopsOnly(31);
    Pow2Five();
    TableSafe(Gap(), 5);
    NothingToPlace(Gap());
    LeftOver(Gap(), 5);
    FirstLeft(Gap(), 5);
    TableEntry(Gap(), 5, 0);
    assert Symbols(Gap(), 5)[..0] == [];
    NumberZero(5, 0);
  }

  lemma GapComplete()
    ensures Complete(Gap(), 5, 31)
  {
  }

  lemma Pow2Five()
    ensures Pow2(5) == 32
  {
  }

  /** The decoder accepts the description of that distribution, and the table leads out of itself:
      from state 0 on to states from 65504. */
  method UnsafeTable() returns (data: seq<Byte>, r: Option<(Table, nat)>)
    ensures r.Some? && r.value.1 == |data|
    ensures |r.value.0.entries| == 32 && r.value.0.entries[0] == Entry(0, 6, 65504) && !Safe(r.value.0)
  {
    hide TableOf, Closes, Total, IsDescription, Describes, Pow2, Safe;
    GapAccepted();
    var header := WriteDescription(Gap(), 5);
    data := header.value;
    AllOfIt(data, Gap(), 5);
    GapComplete();
    r := DecodeSeqTable(data, MODE_FSE, None, TableKind(Single(0), 0, 31, 8), ByDescription(data, Gap(), 5));
  }
}
