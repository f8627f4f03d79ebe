/** Sequence coding (section 3.1.1.3.2 of RFC 8878): three FSE states, chosen from the last
    sequence back to the first so that the decoder meets them in forward order. */
module ZstdSequences {
  import opened Bytes
  import opened ZstdFse
  import opened ZstdBits
  import opened ZstdCodes
  import opened ZstdLz

  datatype Tables = Tables(ll: Table, of: Table, ml: Table)

  // ----- states of a symbol -----

  /** The states below `n` that decode to `s`, in ascending order. */
  function StatesFor(entries: seq<Entry>, n: nat, s: nat): (r: seq<nat>)
    requires n <= |entries|
    ensures forall k :: 0 <= k < |r| ==> r[k] < n && entries[r[k]].symbol == s
  {
    if n == 0 then []
    else StatesFor(entries, n - 1, s) + (if entries[n - 1].symbol == s then [n - 1] else [])
  }

  lemma {:induction false} StatesHas(entries: seq<Entry>, n: nat, s: nat, p: nat)
    requires p < n <= |entries| && entries[p].symbol == s
    ensures p in StatesFor(entries, n, s)
    decreases n
  {
    if p < n - 1 {
      StatesHas(entries, n - 1, s, p);
    }
  }

  /** The states of every symbol, as the encoder lists them. */
  ghost predicate MapOk(t: Table, encMap: seq<seq<nat>>) {
    forall s :: 0 <= s < |encMap| ==> encMap[s] == StatesFor(t.entries, |t.entries|, s)
  }

  ghost predicate HasSource(t: Table, s: nat, target: nat) {
    exists p :: 0 <= p < |t.entries| && t.entries[p].symbol == s && Reaches(t.entries[p], target)
  }

  /** The table can code `s` whatever state comes next. */
  ghost predicate Codes(t: Table, s: nat) {
    && |t.entries| == Pow2(t.log)
    && forall target :: 0 <= target < |t.entries| ==> HasSource(t, s, target)
  }

  /** Every table that is filled exactly can code each of its symbols. */
  lemma TableCodes(probs: seq<int>, al: nat, s: nat)
    requires Fits(probs, al) && s < |probs| && Weight(probs[s]) > 0
    ensures Closes(probs, al) && Codes(TableOf(probs, al), s)
  {
    hide Symbols, EntryAt, Closes, TableOf, Weight, Pow2, Reaches, SymbolsFit;
    FitsOnce(probs, al);
    var t, syms := TableOf(probs, al), Symbols(probs, al);
    forall target | 0 <= target < |t.entries| ensures HasSource(t, s, target) {
      FittingEntry(probs, al, target);
      var p := SourceExists(probs, al, syms, s, target);
      SymbolsKnown(probs, al);
      FittingEntry(probs, al, p);
    }
  }

  // ----- which tables are safe to decode with -----

  /** Decoding never leaves the table. */
  ghost predicate Safe(t: Table) {
    |t.entries| == Pow2(t.log) && forall p :: 0 <= p < |t.entries| ==> SafeCell(t.entries[p], |t.entries|)
  }

  ghost predicate SafeCell(e: Entry, size: nat) {
    e.baseline + Pow2(e.numBits) <= size
  }

  /** A cell is safe exactly if its number is one of those that lead to states. */
  lemma CellSafe(al: nat, symbol: nat, x: nat)
    requires al <= 15 && x < 65536
    ensures SafeCell(Coded(al, symbol, x), Pow2(al)) <==> 0 < x < 2 * Pow2(al)
  {
    hide Pow2, Log2, Coded;
    Pow2Monotone(al, 15);
    Pow15();
    if x == 0 {
      NumberZero(al, symbol);
    } else if x < 2 * Pow2(al) {
      CodedIs(al, symbol, x);
    } else {
      NumberTooLarge(al, symbol, x);
    }
  }

  /** Number 0 gives a baseline past the table. */
  lemma NumberZero(al: nat, symbol: nat)
    requires Pow2(al) <= 32768
    ensures Coded(al, symbol, 0) == Entry(symbol, Wrapped(al + 1, 256), 65536 - Pow2(al))
    ensures !SafeCell(Coded(al, symbol, 0), Pow2(al))
  {
    hide Pow2, Baseline;
    Pow2Positive(al);
    Pow2Positive(Wrapped(al + 1, 256));
    BaselineZero(al, al + 1);
  }

  lemma BaselineZero(al: nat, bits: int)
    requires Pow2(al) <= 32768
    ensures Baseline(al, 0, bits) == 65536 - Pow2(al)
  {
    hide Pow2;
    Pow2Positive(al);
    var shift := Pow2(Wrapped(bits, 16));
    assert 0 * shift == 0;
  }

  lemma WrapsBelow(v: int)
    requires -256 <= v < 0
    ensures Wrapped(v, 256) == 256 + v
  {
  }

  /** A number past the states gives a number of bits that has wrapped around. */
  lemma NumberTooLarge(al: nat, symbol: nat, x: nat)
    requires al <= 15 && 2 * Pow2(al) <= x < 65536
    ensures !SafeCell(Coded(al, symbol, x), Pow2(al))
  {
    hide Pow2, Log2, Baseline, Wrapped;
    Doubled(al);
    Doubled(15);
    Pow15();
    Pow2Positive(0);
    Log2AtMost(x, 15);
    Log2AtLeast(x, al + 1);
    var bits := 256 + al - Log2(x);
    WrapsBelow(al - Log2(x));
    Pow2Monotone(al + 1, bits);
    Pow2Positive(al);
  }

  lemma Log2AtLeast(x: nat, n: nat)
    requires x >= Pow2(n)
    ensures Log2(x) >= n
  {
    hide Pow2;
    Pow2Positive(n);
    Log2Is(x, Log2(x));
    if Log2(x) < n {
      Pow2Monotone(Log2(x) + 1, n);
    }
  }

  /** The tables the builder accepts, whatever the distribution: safe exactly if every symbol placed
      has cells of its own and no cell of it is numbered past the states. */
  lemma SafeNumbers(probs: seq<int>, al: nat)
    requires GoodLog(al) && Closes(probs, al) && forall s :: 0 <= s < |probs| ==> probs[s] < 32768
    ensures Tops(probs) <= Pow2(al)
    ensures |Symbols(probs, al)| == Pow2(al) && forall p :: 0 <= p < Pow2(al) ==> Symbols(probs, al)[p] < |probs|
    ensures Safe(TableOf(probs, al)) <==>
            forall p :: 0 <= p < Pow2(al) ==> 0 < Number(probs, Symbols(probs, al), p) < 2 * Pow2(al)
  {
    hide Symbols, Closes, TableOf, Coded, SafeCell, Pow2;
    SymbolsKnown(probs, al);
    var syms := Symbols(probs, al);
    Pow2Monotone(al, 15);
    Pow15();
    forall p | 0 <= p < Pow2(al)
      ensures SafeCell(TableOf(probs, al).entries[p], Pow2(al)) <==> 0 < Number(probs, syms, p) < 2 * Pow2(al)
    {
      TableEntry(probs, al, p);
      CountAtMost<nat>(syms[..p], syms[p]);
      CellSafe(al, syms[p], Number(probs, syms, p));
    }
  }

  /** Of the distributions that ask for no more cells than there are, the builder accepts those that
      fill the table and those without a positive probability. The tables it makes of them are safe
      exactly if the table is full or symbol 0, which the cells left over are taken for, has
      probability -1. */
  lemma TableSafe(probs: seq<int>, al: nat)
    requires GoodLog(al) && probs != [] && Total(probs) <= Pow2(al)
    ensures Closes(probs, al) <==> Total(probs) == Pow2(al) || forall s :: 0 <= s < |probs| ==> probs[s] <= 0
    ensures Closes(probs, al) ==>
              (Safe(TableOf(probs, al)) <==> Total(probs) == Pow2(al) || probs[0] == -1)
  {
    hide Symbols, Closes, TableOf, Pow2, SafeCell;
    AcceptedWhen(probs, al);
    if Total(probs) == Pow2(al) {
      FitsOnce(probs, al);
      forall p | 0 <= p < Pow2(al) ensures SafeCell(TableOf(probs, al).entries[p], Pow2(al)) {
        FittingEntry(probs, al, p);
        FullCellSafe(probs, al, p);
      }
    } else if Closes(probs, al) {
      LeftOver(probs, al);
      SafeNumbers(probs, al);
    }
  }

  lemma FullCellSafe(probs: seq<int>, al: nat, p: nat)
    requires Fits(probs, al) && Tops(probs) <= Pow2(al) && SymbolsFit(probs, al, Symbols(probs, al)) && p < Pow2(al)
    ensures SafeCell(EntryAt(probs, al, Symbols(probs, al), p), Pow2(al))
  {
  }

  /** Asked for no more cells than there are, the walk makes one round or none. */
  lemma AcceptedWhen(probs: seq<int>, al: nat)
    requires GoodLog(al) && probs != [] && Total(probs) <= Pow2(al)
    ensures Closes(probs, al) <==> Total(probs) == Pow2(al) || forall s :: 0 <= s < |probs| ==> probs[s] <= 0
    ensures Closes(probs, al) && Total(probs) < Pow2(al) ==> Expand(probs) == [] && Tops(probs) < Pow2(al)
  {
    hide Expand, Tops, Divides, Pow2;
    TotalSplit(probs);
    NothingToPlace(probs);
    var placed, round := |Expand(probs)|, High(probs, al) + 1;
    OneRoundOrNone(placed, round);
    if Total(probs) == Pow2(al) {
      FitsOnce(probs, al);
    }
  }

  lemma OneRoundOrNone(placed: nat, round: nat)
    requires placed <= round && round > 0
    ensures Divides(round, placed) <==> placed == 0 || placed == round
  {
  }

  lemma {:induction false} NothingToPlace(probs: seq<int>)
    ensures Expand(probs) == [] <==> forall s :: 0 <= s < |probs| ==> probs[s] <= 0
    decreases |probs|
  {
    if probs != [] {
      var last := |probs| - 1;
      NothingToPlace(probs[..last]);
      if probs[last] <= 0 {
        assert forall s :: 0 <= s < |probs| ==> s == last || probs[s] == probs[..last][s];
      } else {
        assert Rep<nat>(last, probs[last]) != [];
      }
    }
  }

  lemma FirstLeft(probs: seq<int>, al: nat)
    requires Closes(probs, al) && Expand(probs) == [] && Tops(probs) < Pow2(al)
    ensures Symbols(probs, al)[0] == 0
  {
    hide TopCells, Tops, Lap, Expand, Pow2;
    RoundOrNone(High(probs, al) + 1, Pow2(al));
    LapStart(probs, al);
    Pow2Positive(al);
    TopCellsAre(probs, Pow2(al), 0);
  }

  /** The cells below those taken from the end are left for symbol 0. */
  lemma LeftOver(probs: seq<int>, al: nat)
    requires GoodLog(al) && Closes(probs, al) && Expand(probs) == [] && Tops(probs) < Pow2(al)
    requires forall s :: 0 <= s < |probs| ==> probs[s] <= 0
    ensures var syms := Symbols(probs, al);
      && |syms| == Pow2(al) && (forall p :: 0 <= p < Pow2(al) ==> syms[p] < |probs|)
      && ((forall p :: 0 <= p < Pow2(al) ==> 0 < Number(probs, syms, p) < 2 * Pow2(al)) <==> probs[0] == -1)
  {
    hide TopCells, Tops, Lap, Expand, Pow2;
    SymbolsKnown(probs, al);
    RoundOrNone(High(probs, al) + 1, Pow2(al));
    LapStart(probs, al);
    Pow2Positive(al);
    var syms := Symbols(probs, al);
    FirstLeft(probs, al);
    assert syms[0] == 0 && syms[..0] == [];
    assert Number(probs, syms, 0) == Weight(probs[0]);
    forall p | 0 <= p < Pow2(al)
      ensures probs[0] == -1 ==> 0 < Number(probs, syms, p) < 2 * Pow2(al)
    {
      TopCellsAre(probs, Pow2(al), p);
      CountAtMost<nat>(syms[..p], syms[p]);
    }
  }

  // ----- the encoder's choice of states -----

  /** The first state of a symbol, or 0 if it has none. */
  function FirstState(t: Table, s: nat): nat {
    var states := StatesFor(t.entries, |t.entries|, s);
    if states == [] then 0 else states[0]
  }

  /** The first of the states from `k` on that can lead to `target`; failing that, the first of all. */
  function FirstSource(t: Table, states: seq<nat>, k: nat, target: nat): nat
    requires states != [] && forall i :: 0 <= i < |states| ==> states[i] < |t.entries|
    decreases |states| - k
  {
    if k >= |states| then states[0]
    else if Reaches(t.entries[states[k]], target) then states[k]
    else FirstSource(t, states, k + 1, target)
  }

  function SourceOf(t: Table, s: nat, target: nat): nat {
    var states := StatesFor(t.entries, |t.entries|, s);
    if states == [] then 0 else FirstSource(t, states, 0, target)
  }

  /** The states for the codes from `i` on, settled from the last code back. */
  function StatesOf(t: Table, codes: seq<nat>, i: nat): (st: seq<nat>)
    requires i < |codes|
    ensures |st| == |codes| - i
    decreases |codes| - i
  {
    if i + 1 == |codes| then [FirstState(t, codes[i])]
    else
      var later := StatesOf(t, codes, i + 1);
      [SourceOf(t, codes[i], later[0])] + later
  }

  method FindStateForSymbol(encMap: seq<seq<nat>>, symbol: nat, ghost t: Table) returns (state: nat)
    requires MapOk(t, encMap)
    ensures symbol < |encMap| ==> state == FirstState(t, symbol)
    ensures symbol < |encMap| && Codes(t, symbol) ==> state < |t.entries| && t.entries[state].symbol == symbol
  {
    if symbol < |encMap| && encMap[symbol] != [] {
      return encMap[symbol][0];
    }
    if symbol < |encMap| && Codes(t, symbol) {
      ghost var p := SomeSource(t, symbol, 0);
    }
    return 0;
  }

  lemma SomeSource(t: Table, s: nat, target: nat) returns (p: nat)
    requires Codes(t, s) && target < |t.entries|
    ensures p < |t.entries| && t.entries[p].symbol == s && Reaches(t.entries[p], target)
    ensures p in StatesFor(t.entries, |t.entries|, s)
  {
    assert HasSource(t, s, target);
    p :| 0 <= p < |t.entries| && t.entries[p].symbol == s && Reaches(t.entries[p], target);
    StatesHas(t.entries, |t.entries|, s, p);
  }

  /** The field that takes the decoder from one state to the next. */
  function StepField(t: Table, from: nat, to: nat): (f: Field)
    requires from < |t.entries| && Reaches(t.entries[from], to)
    ensures f.value < Pow2(f.bits)
  {
    Field(to - t.entries[from].baseline, t.entries[from].numBits)
  }

  /** The candidate whose range holds the target. There is one, so the fallback is not used. */
  method FindSourceState(t: Table, encMap: seq<seq<nat>>, symbol: nat, target: nat)
      returns (source: nat, field: Field)
    requires MapOk(t, encMap)
    ensures symbol < |encMap| ==> source == SourceOf(t, symbol, target)
    ensures symbol < |encMap| && Codes(t, symbol) && target < |t.entries| ==>
              && source < |t.entries| && t.entries[source].symbol == symbol
              && Reaches(t.entries[source], target) && field == StepField(t, source, target)
  {
    ghost var on := symbol < |encMap| && Codes(t, symbol) && target < |t.entries|;
    ghost var p: nat := 0;
    if on {
      p := SomeSource(t, symbol, target);
    }
    if symbol >= |encMap| || encMap[symbol] == [] {
      return 0, Field(0, 0);
    }
    var i: nat := 0;
    while i < |encMap[symbol]|
      invariant i <= |encMap[symbol]|
      invariant SourceOf(t, symbol, target) == FirstSource(t, encMap[symbol], i, target)
      invariant on ==> forall k :: 0 <= k < i ==> encMap[symbol][k] != p
    {
      source := encMap[symbol][i];
      var entry := t.entries[source];
      if entry.baseline <= target < entry.baseline + Pow2(entry.numBits) {
        return source, Field(target - entry.baseline, entry.numBits);
      }
      i := i + 1;
    }
    return encMap[symbol][0], Field(0, 0);
  }

  // ----- the stream -----

  ghost predicate SeqOk(s: Sequence) {
    s.litLen < 131072 && 3 <= s.matchLen < 131075 && 0 < s.offset < 0x1_0000_0000
  }

  function LlCodes(seqs: seq<Sequence>): (r: seq<nat>)
    ensures |r| == |seqs| && forall i :: 0 <= i < |r| ==> r[i] == LlCodeOf(seqs[i].litLen)
  {
    seq(|seqs|, i requires 0 <= i < |seqs| => LlCodeOf(seqs[i].litLen))
  }

  function OfCodes(seqs: seq<Sequence>): (r: seq<nat>)
    ensures |r| == |seqs| && forall i :: 0 <= i < |r| ==> r[i] == OfCodeOf(seqs[i].offset)
  {
    seq(|seqs|, i requires 0 <= i < |seqs| => OfCodeOf(seqs[i].offset))
  }

  function MlCodes(seqs: seq<Sequence>): (r: seq<nat>)
    ensures |r| == |seqs|
    ensures forall i :: 0 <= i < |r| && seqs[i].matchLen >= 3 ==> r[i] == MlCodeOf(seqs[i].matchLen)
  {
    seq(|seqs|, i requires 0 <= i < |seqs| => if seqs[i].matchLen >= 3 then MlCodeOf(seqs[i].matchLen) else 0)
  }

  /** The states `st` decode to the codes from `i` on, each reaching the next. */
  ghost predicate Chain(t: Table, codes: seq<nat>, i: nat, st: seq<nat>) {
    && i + |st| == |codes|
    && (forall k :: 0 <= k < |st| ==> st[k] < |t.entries| && t.entries[st[k]].symbol == codes[i + k])
    && forall k :: 0 <= k < |st| - 1 ==> Reaches(t.entries[st[k]], st[k + 1])
  }

  lemma ChainCons(t: Table, codes: seq<nat>, i: nat, st: seq<nat>, source: nat)
    requires i > 0 && st != [] && Chain(t, codes, i, st)
    requires source < |t.entries| && t.entries[source].symbol == codes[i - 1] && Reaches(t.entries[source], st[0])
    ensures Chain(t, codes, i - 1, [source] + st)
  {
    var st' := [source] + st;
    forall k | 0 <= k < |st'| ensures st'[k] < |t.entries| && t.entries[st'[k]].symbol == codes[i - 1 + k] {
      if k > 0 {
        assert st'[k] == st[k - 1];
        assert codes[i + (k - 1)] == codes[i - 1 + k];
      }
    }
    forall k | 0 <= k < |st'| - 1 ensures Reaches(t.entries[st'[k]], st'[k + 1]) {
      if k > 0 {
        assert st'[k] == st[k - 1] && st'[k + 1] == st[k - 1 + 1];
      }
    }
  }

  /** What the encoder has settled before it writes. */
  datatype Plan = Plan(seqs: seq<Sequence>, t: Tables, ls: seq<nat>, os: seq<nat>, ms: seq<nat>)

  /** The plan for the sequences, given the tables. */
  function PlanFor(seqs: seq<Sequence>, t: Tables): Plan
    requires seqs != []
  {
    Plan(seqs, t, StatesOf(t.ll, LlCodes(seqs), 0), StatesOf(t.of, OfCodes(seqs), 0), StatesOf(t.ml, MlCodes(seqs), 0))
  }

  ghost predicate PlanOk(p: Plan) {
    && p.seqs != [] && (forall i :: 0 <= i < |p.seqs| ==> SeqOk(p.seqs[i]))
    && Chain(p.t.ll, LlCodes(p.seqs), 0, p.ls)
    && Chain(p.t.of, OfCodes(p.seqs), 0, p.os)
    && Chain(p.t.ml, MlCodes(p.seqs), 0, p.ms)
    && |p.t.ll.entries| == Pow2(p.t.ll.log) && |p.t.of.entries| == Pow2(p.t.of.log)
        && |p.t.ml.entries| == Pow2(p.t.ml.log)
  }

  function FieldBits(f: Field): seq<Bit> {
    ToBits(f.value, f.bits)
  }

  function OfExtra(s: Sequence): Field
    requires s.offset > 0
  {
    Field(s.offset - Pow2(OfCodeOf(s.offset)), OfCodeOf(s.offset))
  }

  function MlExtra(s: Sequence): Field
    requires SeqOk(s)
  {
    Field(s.matchLen - ML_BASELINES[MlCodeOf(s.matchLen)], ML_EXTRA_BITS[MlCodeOf(s.matchLen)])
  }

  function LlExtra(s: Sequence): Field
    requires SeqOk(s)
  {
    Field(s.litLen - LL_BASELINES[LlCodeOf(s.litLen)], LL_EXTRA_BITS[LlCodeOf(s.litLen)])
  }

  lemma ExtraFits(s: Sequence)
    requires SeqOk(s)
    ensures OfExtra(s).value < Pow2(OfExtra(s).bits) && MlExtra(s).value < Pow2(MlExtra(s).bits)
    ensures LlExtra(s).value < Pow2(LlExtra(s).bits)
  {
  }

  /** The bits from sequence `i` on: extra bits, then the steps to the next states. */
  function Body(p: Plan, i: nat): seq<Bit>
    requires PlanOk(p)
    decreases |p.seqs| - i
  {
    if i >= |p.seqs| then []
    else
      var s := p.seqs[i];
      FieldBits(OfExtra(s)) + (FieldBits(MlExtra(s)) + (FieldBits(LlExtra(s)) + AfterExtra(p, i)))
  }

  function AfterExtra(p: Plan, i: nat): seq<Bit>
    requires PlanOk(p) && i < |p.seqs|
    decreases |p.seqs| - i, 0
  {
    if i + 1 == |p.seqs| then []
    else
      FieldBits(StepField(p.t.ll, p.ls[i], p.ls[i + 1]))
      + (FieldBits(StepField(p.t.ml, p.ms[i], p.ms[i + 1]))
         + (FieldBits(StepField(p.t.of, p.os[i], p.os[i + 1])) + Body(p, i + 1)))
  }

  function Stream(p: Plan): seq<Bit>
    requires PlanOk(p)
  {
    ToBits(p.ls[0], p.t.ll.log) + (ToBits(p.os[0], p.t.of.log) + (ToBits(p.ms[0], p.t.ml.log) + Body(p, 0)))
  }

  // ----- the encoder -----

  datatype Update = Update(ll: Field, of: Field, ml: Field)

  /** The updates for the sequences from `i` on. */
  ghost predicate UpdatesFrom(t: Tables, n: nat, i: nat, ls: seq<nat>, os: seq<nat>, ms: seq<nat>, updates: seq<Update>,
                              lc: seq<nat>, oc: seq<nat>, mc: seq<nat>)
  {
    && |lc| == |oc| == |mc| == |updates| == n
    && Chain(t.ll, lc, i, ls) && Chain(t.of, oc, i, os) && Chain(t.ml, mc, i, ms)
    && forall k :: 0 <= k < |ls| - 1 ==>
         updates[i + k] == Update(StepField(t.ll, ls[k], ls[k + 1]), StepField(t.of, os[k], os[k + 1]),
                                  StepField(t.ml, ms[k], ms[k + 1]))
  }

  lemma UpdatesCons(t: Tables, n: nat, i: nat, ls: seq<nat>, os: seq<nat>, ms: seq<nat>, updates: seq<Update>,
                    lc: seq<nat>, oc: seq<nat>, mc: seq<nat>, l: nat, o: nat, m: nat)
    requires 0 < i < n && UpdatesFrom(t, n, i, ls, os, ms, updates, lc, oc, mc)
    requires l < |t.ll.entries| && t.ll.entries[l].symbol == lc[i - 1] && Reaches(t.ll.entries[l], ls[0])
    requires o < |t.of.entries| && t.of.entries[o].symbol == oc[i - 1] && Reaches(t.of.entries[o], os[0])
    requires m < |t.ml.entries| && t.ml.entries[m].symbol == mc[i - 1] && Reaches(t.ml.entries[m], ms[0])
    ensures var u := Update(StepField(t.ll, l, ls[0]), StepField(t.of, o, os[0]), StepField(t.ml, m, ms[0]));
      UpdatesFrom(t, n, i - 1, [l] + ls, [o] + os, [m] + ms, updates[i - 1 := u], lc, oc, mc)
  {
    hide Chain;
    ChainLength(t.ll, lc, i, ls);
    ChainLength(t.of, oc, i, os);
    ChainLength(t.ml, mc, i, ms);
    ChainCons(t.ll, lc, i, ls, l);
    ChainCons(t.of, oc, i, os, o);
    ChainCons(t.ml, mc, i, ms, m);
    var u := Update(StepField(t.ll, l, ls[0]), StepField(t.of, o, os[0]), StepField(t.ml, m, ms[0]));
    var updates' := updates[i - 1 := u];
    var ls', os', ms' := [l] + ls, [o] + os, [m] + ms;
    ChainLength(t.ll, lc, i - 1, ls');
    ChainLength(t.of, oc, i - 1, os');
    ChainLength(t.ml, mc, i - 1, ms');
    forall k | 0 <= k < |ls'| - 1
      ensures updates'[i - 1 + k] == Update(StepField(t.ll, ls'[k], ls'[k + 1]), StepField(t.of, os'[k], os'[k + 1]),
                                            StepField(t.ml, ms'[k], ms'[k + 1]))
    {
      if k > 0 {
        assert updates'[i - 1 + k] == updates[i + (k - 1)];
        assert ls'[k] == ls[k - 1] && ls'[k + 1] == ls[k - 1 + 1];
        assert os'[k] == os[k - 1] && os'[k + 1] == os[k - 1 + 1];
        assert ms'[k] == ms[k - 1] && ms'[k + 1] == ms[k - 1 + 1];
      }
    }
  }

  lemma ChainLength(t: Table, codes: seq<nat>, i: nat, st: seq<nat>)
    requires Chain(t, codes, i, st)
    ensures i + |st| == |codes|
    ensures forall k :: 0 <= k < |st| ==> st[k] < |t.entries|
    ensures forall k :: 0 <= k < |st| - 1 ==> Reaches(t.entries[st[k]], st[k + 1])
  {
  }

  /** A table, its description, and the encoder's lists of states. */
  datatype EncTable = EncTable(mode: nat, header: seq<Byte>, table: Table, encMap: seq<seq<nat>>)

  ghost predicate Ready(e: EncTable, codes: seq<nat>) {
    && MapOk(e.table, e.encMap) && |e.table.entries| == Pow2(e.table.log)
    && forall i :: 0 <= i < |codes| ==> codes[i] < |e.encMap| && Codes(e.table, codes[i])
  }

  lemma ReadyAt(e: EncTable, codes: seq<nat>, i: nat)
    requires Ready(e, codes) && i < |codes|
    ensures MapOk(e.table, e.encMap) && codes[i] < |e.encMap| && Codes(e.table, codes[i])
  {
  }

  method ComputeCodes(seqs: seq<Sequence>) returns (lc: seq<nat>, oc: seq<nat>, mc: seq<nat>)
    requires forall i :: 0 <= i < |seqs| ==> SeqOk(seqs[i])
    ensures lc == LlCodes(seqs) && oc == OfCodes(seqs) && mc == MlCodes(seqs)
  {
    hide LlCodeOf, OfCodeOf, MlCodeOf;
    lc, oc, mc := [], [], [];
    var i: nat := 0;
    while i < |seqs|
      invariant i <= |seqs| && lc == LlCodes(seqs)[..i] && oc == OfCodes(seqs)[..i] && mc == MlCodes(seqs)[..i]
    {
      assert SeqOk(seqs[i]);
      var l := LlCode(seqs[i].litLen);
      var o := OfCodeOf(seqs[i].offset);
      var m := MlCode(seqs[i].matchLen);
      lc, oc, mc := lc + [l], oc + [o], mc + [m];
      i := i + 1;
    }
  }

  lemma LastStates(t: Tables, n: nat, updates: seq<Update>, lc: seq<nat>, oc: seq<nat>, mc: seq<nat>,
                   l: nat, o: nat, m: nat)
    requires n > 0 && |lc| == |oc| == |mc| == |updates| == n
    requires l < |t.ll.entries| && t.ll.entries[l].symbol == lc[n - 1]
    requires o < |t.of.entries| && t.of.entries[o].symbol == oc[n - 1]
    requires m < |t.ml.entries| && t.ml.entries[m].symbol == mc[n - 1]
    ensures UpdatesFrom(t, n, n - 1, [l], [o], [m], updates, lc, oc, mc)
  {
  }

  /** The states, from the last sequence back to the first. */
  method ChooseStates(n: nat, ll: EncTable, of: EncTable, ml: EncTable, lc: seq<nat>, oc: seq<nat>, mc: seq<nat>)
      returns (initLl: nat, initOf: nat, initMl: nat, updates: seq<Update>,
               ghost ls: seq<nat>, ghost os: seq<nat>, ghost ms: seq<nat>)
    requires |lc| == |oc| == |mc| == n > 0 && Ready(ll, lc) && Ready(of, oc) && Ready(ml, mc)
    ensures UpdatesFrom(Tables(ll.table, of.table, ml.table), n, 0, ls, os, ms, updates, lc, oc, mc)
    ensures |ls| == |os| == |ms| == n && ls[0] == initLl && os[0] == initOf && ms[0] == initMl
    ensures ls == StatesOf(ll.table, lc, 0) && os == StatesOf(of.table, oc, 0) && ms == StatesOf(ml.table, mc, 0)
  {
    hide Chain, UpdatesFrom, Ready, MapOk, Codes, Reaches, Pow2, SourceOf, FirstState;
    ghost var t := Tables(ll.table, of.table, ml.table);
    ReadyAt(ll, lc, n - 1);
    ReadyAt(of, oc, n - 1);
    ReadyAt(ml, mc, n - 1);
    initLl := FindStateForSymbol(ll.encMap, lc[n - 1], ll.table);
    initOf := FindStateForSymbol(of.encMap, oc[n - 1], of.table);
    initMl := FindStateForSymbol(ml.encMap, mc[n - 1], ml.table);
    ls, os, ms := [initLl], [initOf], [initMl];
    var none := Field(0, 0);
    updates := Rep<Update>(Update(none, none, none), n);
    LastStates(t, n, updates, lc, oc, mc, initLl, initOf, initMl);
    var i: nat := n - 1;
    while i > 0
      invariant i < n && |updates| == n && |ls| == |os| == |ms| == n - i
      invariant ls[0] == initLl && os[0] == initOf && ms[0] == initMl
      invariant initLl < |ll.table.entries| && initOf < |of.table.entries| && initMl < |ml.table.entries|
      invariant ls == StatesOf(ll.table, lc, i) && os == StatesOf(of.table, oc, i) && ms == StatesOf(ml.table, mc, i)
      invariant UpdatesFrom(t, n, i, ls, os, ms, updates, lc, oc, mc)
    {
      ReadyAt(ll, lc, i - 1);
      ReadyAt(of, oc, i - 1);
      ReadyAt(ml, mc, i - 1);
      var srcL, fieldL := FindSourceState(ll.table, ll.encMap, lc[i - 1], initLl);
      var srcO, fieldO := FindSourceState(of.table, of.encMap, oc[i - 1], initOf);
      var srcM, fieldM := FindSourceState(ml.table, ml.encMap, mc[i - 1], initMl);
      UpdatesCons(t, n, i, ls, os, ms, updates, lc, oc, mc, srcL, srcO, srcM);
      updates := updates[i - 1 := Update(fieldL, fieldO, fieldM)];
      ls, os, ms := [srcL] + ls, [srcO] + os, [srcM] + ms;
      initLl, initOf, initMl := srcL, srcO, srcM;
      i := i - 1;
    }
  }

  lemma PlanMade(seqs: seq<Sequence>, t: Tables, ls: seq<nat>, os: seq<nat>, ms: seq<nat>, updates: seq<Update>)
    requires seqs != [] && forall i :: 0 <= i < |seqs| ==> SeqOk(seqs[i])
    requires UpdatesFrom(t, |seqs|, 0, ls, os, ms, updates, LlCodes(seqs), OfCodes(seqs), MlCodes(seqs))
    requires |t.ll.entries| == Pow2(t.ll.log) && |t.of.entries| == Pow2(t.of.log) && |t.ml.entries| == Pow2(t.ml.log)
    ensures PlanOk(Plan(seqs, t, ls, os, ms)) && |updates| == |seqs|
    ensures forall i :: 0 <= i < |seqs| - 1 ==>
              updates[i] == Update(StepField(t.ll, ls[i], ls[i + 1]), StepField(t.of, os[i], os[i + 1]),
                                   StepField(t.ml, ms[i], ms[i + 1]))
  {
    assert forall k :: 0 <= k < |ls| - 1 ==> updates[k] == updates[0 + k];
  }

  lemma PlanStates(p: Plan)
    requires PlanOk(p)
    ensures |p.ls| == |p.os| == |p.ms| == |p.seqs| > 0
    ensures forall i :: 0 <= i < |p.seqs| ==>
        p.ls[i] < |p.t.ll.entries| && p.os[i] < |p.t.of.entries| && p.ms[i] < |p.t.ml.entries|
    ensures p.ls[0] < Pow2(p.t.ll.log) && p.os[0] < Pow2(p.t.of.log) && p.ms[0] < Pow2(p.t.ml.log)
    ensures forall i :: 0 <= i < |p.seqs| ==> SeqOk(p.seqs[i])
  {
  }

  method WriteField(writer: BitWriter, f: Field, ghost rest: seq<Bit>, ghost goal: seq<Bit>)
    requires writer.Ok() && f.value < Pow2(f.bits) && writer.Written() + (FieldBits(f) + rest) == goal
    modifies writer
    ensures writer.Ok() && writer.Written() + rest == goal
  {
    hide Pow2, ToBits;
    SmallMod(f.value, Pow2(f.bits));
    Assoc(writer.Written(), FieldBits(f), rest);
    if f.bits > 0 {
      writer.WriteBits(f.value, f.bits);
    } else {
      EmptyField(f);
      assert FieldBits(f) + rest == rest;
    }
  }

  lemma SmallMod(v: nat, t: nat)
    requires v < t
    ensures v % t == v
  {
  }

  lemma EmptyField(f: Field)
    requires f.bits == 0
    ensures FieldBits(f) == []
  {
  }

  /** The extra bits of one sequence and the steps after it. */
  method WriteSequence(writer: BitWriter, ghost p: Plan, i: nat, n: nat, s: Sequence, lc: nat, oc: nat, mc: nat,
                       updates: seq<Update>, ghost goal: seq<Bit>)
    requires PlanOk(p) && n == |p.seqs| && i < n && s == p.seqs[i] && |updates| == n
    requires SeqOk(s) && lc == LlCodeOf(s.litLen) && oc == OfCodeOf(s.offset) && mc == MlCodeOf(s.matchLen)
    requires i + 1 < n ==> Chain(p.t.ll, LlCodes(p.seqs), 0, p.ls) && Chain(p.t.of, OfCodes(p.seqs), 0, p.os)
                           && Chain(p.t.ml, MlCodes(p.seqs), 0, p.ms)
                           && |p.ls| == |p.os| == |p.ms| == n
                           && updates[i] == Update(StepField(p.t.ll, p.ls[i], p.ls[i + 1]),
                                                   StepField(p.t.of, p.os[i], p.os[i + 1]),
                                                   StepField(p.t.ml, p.ms[i], p.ms[i + 1]))
    requires writer.Ok() && writer.Written() + Body(p, i) == goal
    modifies writer
    ensures writer.Ok() && writer.Written() + Body(p, i + 1) == goal
  {
    hide Pow2, ToBits, LlCodeOf, MlCodeOf, OfCodeOf, FieldBits, Chain, StepField, Log2;
    ExtraFits(s);
    var of, ml, ll := OfExtra(s), MlExtra(s), LlExtra(s);
    WriteField(writer, Field(s.offset - Pow2(oc), oc), FieldBits(ml) + (FieldBits(ll) + AfterExtra(p, i)), goal);
    WriteField(writer, Field(s.matchLen - ML_BASELINES[mc], ML_EXTRA_BITS[mc]), FieldBits(ll) + AfterExtra(p, i), goal);
    WriteField(writer, Field(s.litLen - LL_BASELINES[lc], LL_EXTRA_BITS[lc]), AfterExtra(p, i), goal);
    if i < n - 1 {
      var u := updates[i];
      ghost var rest := Body(p, i + 1);
      WriteField(writer, u.ll, FieldBits(u.ml) + (FieldBits(u.of) + rest), goal);
      WriteField(writer, u.ml, FieldBits(u.of) + rest, goal);
      WriteField(writer, u.of, rest, goal);
    }
  }

  method EncodeBitstream(seqs: seq<Sequence>, ll: EncTable, of: EncTable, ml: EncTable)
      returns (data: seq<Byte>, ghost p: Plan)
    requires seqs != [] && forall i :: 0 <= i < |seqs| ==> SeqOk(seqs[i])
    requires Ready(ll, LlCodes(seqs)) && Ready(of, OfCodes(seqs)) && Ready(ml, MlCodes(seqs))
    ensures p == PlanFor(seqs, Tables(ll.table, of.table, ml.table))
    ensures PlanOk(p) && IsStream(data, Stream(p))
  {
    hide Pow2, ToBits, Chain, UpdatesFrom, MapOk, Codes, Body, IsStream, FieldBits, StepField, StatesOf;
    var n := |seqs|;
    var lc, oc, mc := ComputeCodes(seqs);
    var initLl, initOf, initMl, updates, ls, os, ms := ChooseStates(n, ll, of, ml, lc, oc, mc);
    p := Plan(seqs, Tables(ll.table, of.table, ml.table), ls, os, ms);
    PlanMade(seqs, p.t, ls, os, ms, updates);
    PlanStates(p);
    var writer := new BitWriter();
    ghost var goal := Stream(p);
    ghost var afterOf := ToBits(initMl, ml.table.log) + Body(p, 0);
    assert writer.Written() + goal == goal;
    hide PlanOk;
    WriteHead(writer, initLl, ll.table.log, ToBits(initOf, of.table.log) + afterOf, goal);
    WriteHead(writer, initOf, of.table.log, afterOf, goal);
    WriteHead(writer, initMl, ml.table.log, Body(p, 0), goal);
    var i: nat := 0;
    while i < n
      invariant i <= n && writer.Ok() && fresh(writer) && writer.Written() + Body(p, i) == goal
    {
      StepsKnown(p, i, updates);
      WriteSequence(writer, p, i, n, seqs[i], lc[i], oc[i], mc[i], updates, goal);
      i := i + 1;
    }
    BodyEnds(p, i);
    assert writer.Written() + [] == writer.Written();
    data := writer.Finish();
  }

  lemma BodyEnds(p: Plan, i: nat)
    requires PlanOk(p) && i >= |p.seqs|
    ensures Body(p, i) == []
  {
  }

  lemma StepsKnown(p: Plan, i: nat, updates: seq<Update>)
    requires PlanOk(p) && i < |p.seqs|
    ensures Chain(p.t.ll, LlCodes(p.seqs), 0, p.ls) && Chain(p.t.of, OfCodes(p.seqs), 0, p.os)
            && Chain(p.t.ml, MlCodes(p.seqs), 0, p.ms)
    ensures SeqOk(p.seqs[i])
  {
  }

  method WriteHead(writer: BitWriter, state: nat, log: nat, ghost rest: seq<Bit>, ghost goal: seq<Bit>)
    requires writer.Ok() && state < Pow2(log) && writer.Written() + (ToBits(state, log) + rest) == goal
    modifies writer
    ensures writer.Ok() && writer.Written() + rest == goal
  {
    hide Pow2, ToBits;
    SmallMod(state, Pow2(log));
    Assoc(writer.Written(), ToBits(state, log), rest);
    writer.WriteBits(state, log);
  }

  // ----- the decoder -----

  /** What decoding comes to. A state past its table is an index out of bounds in the original. */
  datatype Decoded = Sequences(seqs: seq<Sequence>) | Corrupt | OutOfTable

  ghost predicate SafeTables(t: Tables) {
    Safe(t.ll) && Safe(t.of) && Safe(t.ml)
  }

  predicate InTables(t: Tables, l: nat, o: nat, m: nat) {
    l < |t.ll.entries| && o < |t.of.entries| && m < |t.ml.entries|
  }

  /** Moves a state on by the bits its cell asks for. In a safe table it stays a state. */
  method NextState(t: Table, state: nat, reader: BitReader, ghost on: bool, ghost to: nat, ghost rest: seq<Bit>)
      returns (next: Option<nat>)
    requires reader.Ok() && state < |t.entries|
    requires on ==> Reaches(t.entries[state], to) && reader.Remaining() == FieldBits(StepField(t, state, to)) + rest
    modifies reader`bitPos
    ensures next.Some? ==> reader.Ok() && (Safe(t) ==> next.value < |t.entries|)
    ensures on ==> next == Some(to) && reader.Ok() && reader.Remaining() == rest
  {
    hide Pow2, ToBits, Safe;
    var entry := t.entries[state];
    var bits := reader.Take(entry.numBits, on, if on then to - entry.baseline else 0, rest);
    if bits.None? {
      return None;
    }
    SafeStep(t, state, bits.value);
    return Some(entry.baseline + bits.value);
  }

  lemma SafeStep(t: Table, state: nat, v: nat)
    requires state < |t.entries| && v < Pow2(t.entries[state].numBits)
    ensures Safe(t) ==> t.entries[state].baseline + v < |t.entries|
  {
    hide Pow2;
    assert Safe(t) ==> SafeCell(t.entries[state], |t.entries|);
  }

  /** A baseline and its extra bits. */
  method ReadExtra(reader: BitReader, baseline: nat, extra: nat, ghost on: bool, ghost f: Field, ghost rest: seq<Bit>)
      returns (v: Option<nat>)
    requires reader.Ok()
    requires on ==> f.bits == extra && f.value < Pow2(f.bits) && reader.Remaining() == FieldBits(f) + rest
    modifies reader`bitPos
    ensures v.Some? ==> reader.Ok()
    ensures on ==> v == Some(baseline + f.value) && reader.Ok() && reader.Remaining() == rest
  {
    hide Pow2, ToBits;
    var bits := reader.Take(extra, on, f.value, rest);
    if bits.None? {
      return None;
    }
    return Some(baseline + bits.value);
  }

  /** The three states are those of sequence `i` of the plan. */
  ghost predicate AtStates(p: Plan, i: nat, t: Tables, l: nat, o: nat, m: nat) {
    PlanOk(p) && p.t == t && i < |p.seqs| && l == p.ls[i] && o == p.os[i] && m == p.ms[i]
  }

  lemma SymbolsAt(p: Plan, i: nat, t: Tables, l: nat, o: nat, m: nat)
    requires AtStates(p, i, t, l, o, m)
    ensures var s := p.seqs[i];
      && SeqOk(s) && l < |t.ll.entries| && o < |t.of.entries| && m < |t.ml.entries|
      && t.ll.entries[l].symbol == LlCodeOf(s.litLen) < 36 && t.of.entries[o].symbol == OfCodeOf(s.offset) < 32
      && t.ml.entries[m].symbol == MlCodeOf(s.matchLen) < 53
      && Pow2(OfCodeOf(s.offset)) + OfExtra(s).value == s.offset
      && ML_BASELINES[MlCodeOf(s.matchLen)] + MlExtra(s).value == s.matchLen
      && LL_BASELINES[LlCodeOf(s.litLen)] + LlExtra(s).value == s.litLen
  {
    hide LlCodeOf, MlCodeOf, Log2;
    OfCodeSmall(p.seqs[i].offset);
  }

  lemma OfCodeSmall(offset: nat)
    requires 0 < offset < 0x1_0000_0000
    ensures OfCodeOf(offset) < 32
  {
    SmallPowers();
    Pow2Add(16, 16);
    Log2AtMost(offset, 31);
  }

  /** One sequence: the symbols of the three states with their extra bits. */
  method ReadSequence(reader: BitReader, t: Tables, l: nat, o: nat, m: nat, ghost on: bool, ghost p: Plan, ghost i: nat)
      returns (s: Option<Sequence>)
    requires reader.Ok() && l < |t.ll.entries| && o < |t.of.entries| && m < |t.ml.entries|
    requires on ==> AtStates(p, i, t, l, o, m) && reader.Remaining() == Body(p, i)
    modifies reader`bitPos
    ensures s.Some? ==> reader.Ok()
    ensures on ==> s == Some(p.seqs[i]) && reader.Ok() && reader.Remaining() == AfterExtra(p, i)
  {
    hide Pow2, ToBits, LlCodeOf, MlCodeOf, OfCodeOf, FieldBits, PlanOk, Log2, LL_BASELINES, ML_SINGLE, ML_RANGES;
    hide ML_NO_BITS, ML_RANGE_BITS, LL_EXTRA_BITS;
    ghost var of, ml, ll, rest := Field(0, 0), Field(0, 0), Field(0, 0), [];
    if on {
      SymbolsAt(p, i, t, l, o, m);
      ExtraFits(p.seqs[i]);
      of, ml, ll, rest := OfExtra(p.seqs[i]), MlExtra(p.seqs[i]), LlExtra(p.seqs[i]), AfterExtra(p, i);
    }
    var ofCode, mlCode, llCode := t.of.entries[o].symbol, t.ml.entries[m].symbol, t.ll.entries[l].symbol;
    if ofCode >= 32 || mlCode >= 53 || llCode >= 36 {
      // The original overflows or indexes past its tables.
      return None;
    }
    LlContiguous(0);
    MlContiguous(0);
    var offset := ReadExtra(reader, Pow2(ofCode), ofCode, on, of, FieldBits(ml) + (FieldBits(ll) + rest));
    if offset.None? {
      return None;
    }
    var matchLen := ReadExtra(reader, ML_BASELINES[mlCode], ML_EXTRA_BITS[mlCode], on, ml, FieldBits(ll) + rest);
    if matchLen.None? {
      return None;
    }
    var litLen := ReadExtra(reader, LL_BASELINES[llCode], LL_EXTRA_BITS[llCode], on, ll, rest);
    if litLen.None? {
      return None;
    }
    return Some(Sequence(litLen.value, matchLen.value, offset.value));
  }

  lemma StepsAhead(p: Plan, i: nat, t: Tables, l: nat, o: nat, m: nat)
    requires AtStates(p, i, t, l, o, m) && i + 1 < |p.seqs|
    ensures l < |t.ll.entries| && o < |t.of.entries| && m < |t.ml.entries|
    ensures i + 1 < |p.ls| && i + 1 < |p.os| && i + 1 < |p.ms| && PlanOk(p)
    ensures Reaches(t.ll.entries[l], p.ls[i + 1]) && Reaches(t.of.entries[o], p.os[i + 1])
    ensures Reaches(t.ml.entries[m], p.ms[i + 1])
    ensures AfterExtra(p, i) == FieldBits(StepField(t.ll, l, p.ls[i + 1]))
                                + (FieldBits(StepField(t.ml, m, p.ms[i + 1]))
                                   + (FieldBits(StepField(t.of, o, p.os[i + 1])) + Body(p, i + 1)))
    ensures AtStates(p, i + 1, t, p.ls[i + 1], p.os[i + 1], p.ms[i + 1])
  {
  }

  /** All three states, in the order in which the bits come. */
  method NextStates(reader: BitReader, t: Tables, l: nat, o: nat, m: nat, ghost on: bool, ghost p: Plan, ghost i: nat)
      returns (next: Option<(nat, nat, nat)>)
    requires reader.Ok() && InTables(t, l, o, m)
    requires on ==> AtStates(p, i, t, l, o, m) && i + 1 < |p.seqs| && reader.Remaining() == AfterExtra(p, i)
    modifies reader`bitPos
    ensures next.Some? ==> reader.Ok()
    ensures next.Some? && SafeTables(t) ==> InTables(t, next.value.0, next.value.1, next.value.2)
    ensures on ==> next.Some? && AtStates(p, i + 1, t, next.value.0, next.value.1, next.value.2)
                   && reader.Remaining() == Body(p, i + 1)
  {
    hide Pow2, ToBits, FieldBits, Body, AfterExtra, StepField, Reaches, Safe, AtStates;
    ghost var l', o', m', rest, ofRest, mlRest := 0, 0, 0, [], [], [];
    if on {
      StepsAhead(p, i, t, l, o, m);
      l', o', m', rest := p.ls[i + 1], p.os[i + 1], p.ms[i + 1], Body(p, i + 1);
      ofRest := FieldBits(StepField(t.of, o, o')) + rest;
      mlRest := FieldBits(StepField(t.ml, m, m')) + ofRest;
    }
    var nl := NextState(t.ll, l, reader, on, l', mlRest);
    if nl.None? {
      return None;
    }
    var nm := NextState(t.ml, m, reader, on, m', ofRest);
    if nm.None? {
      return None;
    }
    var no := NextState(t.of, o, reader, on, o', rest);
    if no.None? {
      return None;
    }
    return Some((nl.value, no.value, nm.value));
  }

  ghost predicate Plans(p: Plan, t: Tables, n: nat, data: seq<Byte>) {
    PlanOk(p) && p.t == t && n == |p.seqs| && IsStream(data, Stream(p))
  }

  /** What the encoder planned is what the decoder reads; and with safe tables no data at all takes
      the decoder out of them. */
  method DecodeBitstream(data: seq<Byte>, t: Tables, n: nat, ghost p: Plan) returns (r: Decoded)
    ensures SafeTables(t) ==> r != OutOfTable
    ensures Plans(p, t, n, data) ==> r == Sequences(p.seqs)
  {
    hide Pow2, ToBits, Body, AfterExtra, AtStates, IsStream, PlanOk;
    ghost var on := Plans(p, t, n, data);
    ghost var l, o, m, rest, ofRest, mlRest := 0, 0, 0, [], [], [];
    if on {
      StatesAtStart(p, t);
      l, o, m, rest := p.ls[0], p.os[0], p.ms[0], Body(p, 0);
      mlRest := ToBits(m, t.ml.log) + rest;
      ofRest := ToBits(o, t.of.log) + mlRest;
    }
    var init := Open(data);
    if init.None? {
      return Corrupt;
    }
    var reader := init.value;
    var llState := reader.Take(t.ll.log, on, l, ofRest);
    if llState.None? {
      return Corrupt;
    }
    var ofState := reader.Take(t.of.log, on, o, mlRest);
    if ofState.None? {
      return Corrupt;
    }
    var mlState := reader.Take(t.ml.log, on, m, rest);
    if mlState.None? {
      return Corrupt;
    }
    r := ReadSequences(reader, t, n, llState.value, ofState.value, mlState.value, on, p);
  }

  lemma StatesAtStart(p: Plan, t: Tables)
    requires PlanOk(p) && p.t == t
    ensures |p.seqs| > 0 && |p.ls| > 0 && |p.os| > 0 && |p.ms| > 0 && AtStates(p, 0, t, p.ls[0], p.os[0], p.ms[0])
    ensures p.ls[0] < Pow2(t.ll.log) && p.os[0] < Pow2(t.of.log) && p.ms[0] < Pow2(t.ml.log)
  {
    PlanStates(p);
  }

  lemma AtEndOfPlan(p: Plan, i: nat)
    requires PlanOk(p) && i < |p.seqs|
    ensures p.seqs[..i + 1] == p.seqs[..i] + [p.seqs[i]]
    ensures i + 1 == |p.seqs| ==> AfterExtra(p, i) == []
  {
  }

  method ReadSequences(reader: BitReader, t: Tables, n: nat, l0: nat, o0: nat, m0: nat, ghost on: bool, ghost p: Plan)
      returns (r: Decoded)
    requires reader.Ok()
    requires on ==> n == |p.seqs| && AtStates(p, 0, t, l0, o0, m0) && reader.Remaining() == Body(p, 0)
    modifies reader`bitPos
    ensures SafeTables(t) && InTables(t, l0, o0, m0) ==> r != OutOfTable
    ensures on ==> r == Sequences(p.seqs) && reader.Ok() && reader.Remaining() == []
  {
    hide Pow2, ToBits, Body, AfterExtra, AtStates, PlanOk, SafeTables;
    var l: nat, o: nat, m: nat := l0, o0, m0;
    var seqs: seq<Sequence> := [];
    var i: nat := 0;
    if on {
      GoodPlan(p, 0, t, l0, o0, m0);
    }
    while i < n
      invariant i <= n && reader.Ok()
      invariant SafeTables(t) && InTables(t, l0, o0, m0) ==> InTables(t, l, o, m)
      invariant on ==> PlanOk(p) && seqs == p.seqs[..i]
      invariant on && i < n ==> AtStates(p, i, t, l, o, m) && reader.Remaining() == Body(p, i)
      invariant on && i == n ==> reader.Remaining() == []
    {
      if on {
        AtEndOfPlan(p, i);
        GoodPlan(p, i, t, l, o, m);
      }
      if !InTables(t, l, o, m) {
        return OutOfTable;
      }
      var s := ReadSequence(reader, t, l, o, m, on, p, i);
      if s.None? {
        return Corrupt;
      }
      seqs := seqs + [s.value];
      if i < n - 1 {
        var next := NextStates(reader, t, l, o, m, on, p, i);
        if next.None? {
          return Corrupt;
        }
        l, o, m := next.value.0, next.value.1, next.value.2;
      }
      i := i + 1;
    }
    assert on ==> p.seqs[..i] == p.seqs;
    return Sequences(seqs);
  }

  lemma GoodPlan(p: Plan, i: nat, t: Tables, l: nat, o: nat, m: nat)
    requires AtStates(p, i, t, l, o, m)
    ensures PlanOk(p) && |p.seqs| > 0 && InTables(t, l, o, m)
  {
    PlanStates(p);
  }
}
