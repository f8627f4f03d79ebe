/** The encoder of zstd's compressed blocks: literals as they are, and sequences behind tables chosen
    for them. */
module ZstdBlock {
  import opened Bytes
  import opened ZstdFse
  import opened ZstdBits
  import opened ZstdCodes
  import opened ZstdLz
  import opened ZstdSequences
  import opened ZstdNormalize
  import opened ZstdTables
  import opened ZstdFormat

  // ----- literals -----

  /** The shortest header for so many literals. */
  function LiteralsWidth(n: nat): nat {
    if n < 32 then 1 else if n < 4096 then 2 else 3
  }

  method EncodeLiteralsSection(literals: seq<Byte>) returns (section: seq<Byte>)
    requires |literals| < 0x10_0000
    ensures section == LiteralsBytes(RawLiterals(LiteralsWidth(|literals|), literals))
  {
    var n := |literals|;
    section := [];
    if n < 32 {
      section := section + [n * 8];
    } else if n < 4096 {
      var header := 4 + n * 16;
      section := section + [header % 256];
      section := section + [header / 256];
    } else {
      var header := 12 + n * 16;
      section := section + [header % 256];
      section := section + [header / 256 % 256];
      section := section + [header / 65536];
    }
    section := section + literals;
  }

  // ----- the number of sequences -----

  function CountWidth(n: nat): nat {
    if n < 128 then 1 else if n < 0x7F00 then 2 else 3
  }

  method WriteCount(n: nat) returns (bytes: seq<Byte>)
    requires n < 0x7F00 + 0x1_0000
    ensures bytes == CountForm(CountWidth(n), n)
  {
    if n < 128 {
      bytes := [n];
    } else if n < 0x7F00 {
      bytes := [n / 256 + 128];
      bytes := bytes + [n % 256];
    } else {
      bytes := [255];
      var v := n - 0x7F00;
      bytes := bytes + [v % 256];
      bytes := bytes + [v / 256 % 256];
    }
  }

  // ----- histograms -----

  ghost function HistOf(codes: seq<nat>, size: nat): (h: seq<nat>)
    ensures |h| == size
  {
    seq(size, c requires 0 <= c < size => Count<nat>(codes, c))
  }

  function MaxOf(codes: seq<nat>): (m: nat)
    ensures forall i :: 0 <= i < |codes| ==> codes[i] <= m
    ensures codes != [] ==> m in codes
  {
    if codes == [] then 0
    else
      var last := codes[|codes| - 1];
      var m := MaxOf(codes[..|codes| - 1]);
      assert codes == codes[..|codes| - 1] + [last];
      if last > m then last else m
  }

  ghost predicate CodesFit(seqs: seq<Sequence>) {
    MaxOf(LlCodes(seqs)) < 36 && MaxOf(OfCodes(seqs)) < 32 && MaxOf(MlCodes(seqs)) < 53
  }

  /** The sequences can be coded: no histogram needs a clamped correction. */
  ghost predicate AllCodable(seqs: seq<Sequence>) {
    && CodesFit(seqs)
    && Codable(HistOf(LlCodes(seqs), 36), MaxOf(LlCodes(seqs)), LL_MAX_AL)
    && Codable(HistOf(OfCodes(seqs), 32), MaxOf(OfCodes(seqs)), OF_MAX_AL)
    && Codable(HistOf(MlCodes(seqs), 53), MaxOf(MlCodes(seqs)), ML_MAX_AL)
  }

  /** Counts so far. */
  ghost predicate Counted(hist: seq<nat>, codes: seq<nat>, max: nat, i: nat)
    requires i <= |codes|
  {
    hist == HistOf(codes[..i], |hist|) && max == MaxOf(codes[..i])
  }

  lemma CountedNext(hist: seq<nat>, codes: seq<nat>, max: nat, i: nat)
    requires i < |codes| && Counted(hist, codes, max, i) && codes[i] < |hist|
    ensures Counted(hist[codes[i] := hist[codes[i]] + 1], codes, if codes[i] > max then codes[i] else max, i + 1)
  {
    assert codes[..i + 1][..i] == codes[..i];
    var h := hist[codes[i] := hist[codes[i]] + 1];
    forall c | 0 <= c < |hist| ensures h[c] == Count<nat>(codes[..i + 1], c) {
      CountNext<nat>(codes, i, c);
    }
  }

  lemma CountedAll(hist: seq<nat>, codes: seq<nat>, max: nat)
    requires Counted(hist, codes, max, |codes|) && codes != [] && forall i :: 0 <= i < |codes| ==> codes[i] < |hist|
    ensures hist == HistOf(codes, |hist|) && max == MaxOf(codes) && max < |hist| && Counts(hist, codes, max)
  {
    assert codes[..|codes|] == codes;
  }

  lemma CodesInRange(seqs: seq<Sequence>, i: nat)
    requires i < |seqs| && SeqOk(seqs[i])
    ensures LlCodes(seqs)[i] < 36 && OfCodes(seqs)[i] < 32 && MlCodes(seqs)[i] < 53
  {
    OfCodeSmall(seqs[i].offset);
  }

  method Tally(hist: array<nat>, max0: nat, code: nat, ghost codes: seq<nat>, ghost i: nat) returns (max: nat)
    requires i < |codes| && code == codes[i] < hist.Length && Counted(hist[..], codes, max0, i)
    modifies hist
    ensures Counted(hist[..], codes, max, i + 1)
  {
    CountedNext(hist[..], codes, max0, i);
    hist[code] := hist[code] + 1;
    max := if code > max0 then code else max0;
  }

  method BuildHistograms(seqs: seq<Sequence>)
      returns (ll: seq<nat>, of: seq<nat>, ml: seq<nat>, maxLl: nat, maxOf: nat, maxMl: nat)
    requires seqs != [] && forall i :: 0 <= i < |seqs| ==> SeqOk(seqs[i])
    ensures |ll| == 36 && |of| == 32 && |ml| == 53
    ensures Counted(ll, LlCodes(seqs), maxLl, |seqs|) && Counted(of, OfCodes(seqs), maxOf, |seqs|)
            && Counted(ml, MlCodes(seqs), maxMl, |seqs|)
  {
    hide Counted, LlCodeOf, MlCodeOf, OfCodeOf;
    ghost var lc, oc, mc := LlCodes(seqs), OfCodes(seqs), MlCodes(seqs);
    var llHist := new nat[36](_ => 0);
    var mlHist := new nat[53](_ => 0);
    var ofHist := new nat[32](_ => 0);
    maxLl, maxMl, maxOf := 0, 0, 0;
    NoneCounted(llHist[..], lc);
    NoneCounted(mlHist[..], mc);
    NoneCounted(ofHist[..], oc);
    var i: nat := 0;
    while i < |seqs|
      invariant i <= |seqs|
      invariant Counted(llHist[..], lc, maxLl, i) && Counted(mlHist[..], mc, maxMl, i)
          && Counted(ofHist[..], oc, maxOf, i)
    {
      assert SeqOk(seqs[i]);
      CodesInRange(seqs, i);
      var l := LlCode(seqs[i].litLen);
      var m := MlCode(seqs[i].matchLen);
      var o := OfCodeOf(seqs[i].offset);
      maxLl := Tally(llHist, maxLl, l, lc, i);
      maxMl := Tally(mlHist, maxMl, m, mc, i);
      maxOf := Tally(ofHist, maxOf, o, oc, i);
      i := i + 1;
    }
    ll, of, ml := llHist[..], ofHist[..], mlHist[..];
  }

  lemma NoneCounted(hist: seq<nat>, codes: seq<nat>)
    requires forall c :: 0 <= c < |hist| ==> hist[c] == 0
    ensures Counted(hist, codes, 0, 0)
  {
    assert hist == HistOf(codes[..0], |hist|);
  }

  // ----- what is chosen for the sequences, and how long it comes out -----

  ghost function LlChoice(seqs: seq<Sequence>): Choice
    requires CodesFit(seqs)
  {
    ChoiceFor(HistOf(LlCodes(seqs), 36), MaxOf(LlCodes(seqs)), LL_MAX_AL)
  }

  ghost function OfChoice(seqs: seq<Sequence>): Choice
    requires CodesFit(seqs)
  {
    ChoiceFor(HistOf(OfCodes(seqs), 32), MaxOf(OfCodes(seqs)), OF_MAX_AL)
  }

  ghost function MlChoice(seqs: seq<Sequence>): Choice
    requires CodesFit(seqs)
  {
    ChoiceFor(HistOf(MlCodes(seqs), 53), MaxOf(MlCodes(seqs)), ML_MAX_AL)
  }

  ghost function ChosenPlan(seqs: seq<Sequence>): Plan
    requires seqs != [] && CodesFit(seqs)
  {
    PlanFor(seqs, Tables(TableFrom(LlChoice(seqs)), TableFrom(OfChoice(seqs)), TableFrom(MlChoice(seqs))))
  }

  ghost function StreamSize(p: Plan): nat {
    if PlanOk(p) then |Stream(p)| / 8 + 1 else 0
  }

  /** The bytes the sequences section takes: count, modes, descriptions, bit stream. */
  ghost function SectionSize(seqs: seq<Sequence>): nat {
    if seqs == [] || |seqs| >= 0x7F00 + 0x1_0000 || !CodesFit(seqs) then 1
    else
      CountWidth(|seqs|) + 1 + HeaderSize(LlChoice(seqs)) + HeaderSize(OfChoice(seqs)) + HeaderSize(MlChoice(seqs))
      + StreamSize(ChosenPlan(seqs))
  }

  lemma StreamLength(data: seq<Byte>, p: Plan)
    requires PlanOk(p) && IsStream(data, Stream(p))
    ensures |data| == StreamSize(p)
  {
  }

  // ----- the sequences section -----

  /** The section gives the sequences, whatever the blocks before it have left. */
  ghost predicate Gives(s: Section, seqs: seq<Sequence>) {
    && s.Sequenced? && SectionShape(s) && s.plan.seqs == seqs && PlanOk(s.plan) && IsStream(s.stream, Stream(s.plan))
    && SpecOk(s.ll, LL_KIND) && SpecOk(s.of, OF_KIND) && SpecOk(s.ml, ML_KIND)
    && forall m :: TablesFor(s, m) == Some(s.plan.t)
  }

  lemma GivesOk(s: Section, seqs: seq<Sequence>, m: Memory)
    requires Gives(s, seqs)
    ensures SectionOk(s, m) && Read(s, m).Some?
    ensures Read(s, m).value.0 == seqs && Read(s, m).value.1.offsets == m.offsets
  {
    hide PlanOk, IsStream, SpecOk, SpecTable;
    assert TablesFor(s, m) == Some(s.plan.t);
  }

  method EncodeSequencesSection(seqs: seq<Sequence>) returns (r: Option<seq<Byte>>, ghost s: Section)
    requires seqs != [] && |seqs| < 0x7F00 + 0x1_0000 && forall i :: 0 <= i < |seqs| ==> SeqOk(seqs[i])
    ensures r.Some? <==> AllCodable(seqs)
    ensures r.Some? ==> Gives(s, seqs) && r.value == SectionBytes(s) && |r.value| == SectionSize(seqs)
  {
    hide Counted, Counts, TableFor, Ready, PlanOk, IsStream, Codable, HistOf, MaxOf, CountForm, ChoiceFor, HeaderSize;
    hide TableFrom, Stream, StatesOf, SpecOk, SpecTable, Gives, SectionBytes;
    var section := WriteCount(|seqs|);
    var llHist, ofHist, mlHist, maxLl, maxOf, maxMl := BuildHistograms(seqs);
    CodesAllInRange(seqs);
    CountedAll(llHist, LlCodes(seqs), maxLl);
    CountedAll(ofHist, OfCodes(seqs), maxOf);
    CountedAll(mlHist, MlCodes(seqs), maxMl);
    s := NoSequences(1, []);
    var ll, pl, al := BuildEncTable(llHist, LlCodes(seqs), maxLl, LL_MAX_SYMBOL, LL_MAX_AL);
    var of, po, ao := BuildEncTable(ofHist, OfCodes(seqs), maxOf, OF_MAX_SYMBOL, OF_MAX_AL);
    var ml, pm, am := BuildEncTable(mlHist, MlCodes(seqs), maxMl, ML_MAX_SYMBOL, ML_MAX_AL);
    if ll.None? || of.None? || ml.None? {
      // The original panics at the first of them.
      return None, s;
    }
    EncoderSpec(ll.value, LL_KIND, pl, al);
    EncoderSpec(of.value, OF_KIND, po, ao);
    EncoderSpec(ml.value, ML_KIND, pm, am);
    var modes := ModesByte(ll.value.mode, of.value.mode, ml.value.mode, 0);
    section := section + [modes];
    section := section + ll.value.header;
    section := section + of.value.header;
    section := section + ml.value.header;
    var stream, plan := EncodeBitstream(seqs, ll.value, of.value, ml.value);
    StreamLength(stream, plan);
    assert plan == ChosenPlan(seqs);
    section := section + stream;
    s := Sequenced(CountWidth(|seqs|), SpecFor(ll.value, pl, al), SpecFor(of.value, po, ao), SpecFor(ml.value, pm, am),
                   0, stream, plan);
    Assoc6(CountForm(CountWidth(|seqs|), |seqs|), [modes], ll.value.header, of.value.header, ml.value.header, stream);
    SectionWritten(s, seqs, ll.value, of.value, ml.value);
    return Some(section), s;
  }

  lemma SectionWritten(s: Section, seqs: seq<Sequence>, ll: EncTable, of: EncTable, ml: EncTable)
    requires s.Sequenced? && s.plan.seqs == seqs != [] && CountFits(s.width, |seqs|) && s.low == 0
    requires PlanOk(s.plan) && IsStream(s.stream, Stream(s.plan)) && s.plan.t == Tables(ll.table, of.table, ml.table)
    requires SpecOk(s.ll, LL_KIND) && SpecOk(s.of, OF_KIND) && SpecOk(s.ml, ML_KIND)
    requires forall prev :: SpecTable(s.ll, LL_KIND, prev) == Some(ll.table)
    requires forall prev :: SpecTable(s.of, OF_KIND, prev) == Some(of.table)
    requires forall prev :: SpecTable(s.ml, ML_KIND, prev) == Some(ml.table)
    requires Mode(s.ll) == ll.mode && Mode(s.of) == of.mode && Mode(s.ml) == ml.mode
    requires SpecBytes(s.ll) == ll.header && SpecBytes(s.of) == of.header && SpecBytes(s.ml) == ml.header
    ensures Gives(s, seqs)
    ensures ll.mode < 4 && of.mode < 4 && ml.mode < 4
    ensures SectionBytes(s) == CountForm(s.width, |seqs|) + ([ModesByte(ll.mode, of.mode, ml.mode, 0)]
                               + (ll.header + (of.header + (ml.header + s.stream))))
  {
    hide PlanOk, IsStream, SpecOk, SpecTable, CountForm;
    forall m ensures TablesFor(s, m) == Some(s.plan.t) {
      assert SpecTable(s.ll, LL_KIND, m.ll) == Some(ll.table);
    }
  }

  lemma Assoc6<T>(a: seq<T>, b: seq<T>, c: seq<T>, d: seq<T>, e: seq<T>, f: seq<T>)
    ensures a + (b + (c + (d + (e + f)))) == a + b + c + d + e + f
  {
  }

  lemma CodesAllInRange(seqs: seq<Sequence>)
    requires forall i :: 0 <= i < |seqs| ==> SeqOk(seqs[i])
    ensures forall i :: 0 <= i < |seqs| ==> LlCodes(seqs)[i] < 36
    ensures forall i :: 0 <= i < |seqs| ==> OfCodes(seqs)[i] < 32
    ensures forall i :: 0 <= i < |seqs| ==> MlCodes(seqs)[i] < 53
  {
    forall i | 0 <= i < |seqs| ensures LlCodes(seqs)[i] < 36 && OfCodes(seqs)[i] < 32 && MlCodes(seqs)[i] < 53 {
      CodesInRange(seqs, i);
    }
  }

  // ----- the block -----

  /** A compressed block of these sequences and literals. */
  ghost predicate Packs(b: Block, seqs: seq<Sequence>, literals: seq<Byte>) {
    && b.PackedBlock? && |literals| < 0x10_0000
    && b.literals == RawLiterals(LiteralsWidth(|literals|), literals) && b.section.Some?
    && if seqs == [] then b.section.value == NoSequences(1, []) else Gives(b.section.value, seqs)
  }

  /** What is found in the data can be coded. Otherwise the original panics. */
  ghost predicate Compressible(data: seq<Byte>) {
    Matches(data).0 == [] || AllCodable(Matches(data).0)
  }

  /** The bytes a compressed block takes. */
  ghost function BlockSize(data: seq<Byte>): nat {
    var (seqs, literals) := Matches(data);
    LiteralsWidth(|literals|) + |literals| + SectionSize(seqs)
  }

  method EncodeCompressedBlock(data: seq<Byte>) returns (r: Option<seq<Byte>>, ghost b: Block)
    requires |data| <= MAX_BLOCK_SIZE
    ensures r.Some? <==> Compressible(data)
    ensures r.Some? ==> Packs(b, Matches(data).0, Matches(data).1) && |r.value| == BlockSize(data)
    ensures r.Some? ==> r.value == PackedBytes(b.literals, b.section)
  {
    hide AllCodable, Gives, Matches, SectionSize, SectionBytes;
    var found, lits := FindMatches(data);
    MatchesRepresent(data);
    Small(data, found, lits);
    NoSection();
    var block := EncodeLiteralsSection(lits);
    ghost var literals := RawLiterals(LiteralsWidth(|lits|), lits);
    b := PackedBlock(literals, Some(NoSequences(1, [])));
    if found == [] {
      return Some(block + [0]), b;
    }
    var sec, s := EncodeSequencesSection(found);
    if sec.None? {
      return None, b;
    }
    assert SectionShape(s) by { GivesShape(s, found); }
    b := PackedBlock(literals, Some(s));
    return Some(block + sec.value), b;
  }

  lemma GivesShape(s: Section, seqs: seq<Sequence>)
    requires Gives(s, seqs)
    ensures SectionShape(s)
  {
  }

  lemma NoSection()
    ensures SectionSize([]) == 1
    ensures SectionBytes(NoSequences(1, [])) == [0]
  {
  }

  lemma Small(data: seq<Byte>, seqs: seq<Sequence>, literals: seq<Byte>)
    requires Represents(data, seqs, literals) && |data| <= MAX_BLOCK_SIZE
    ensures |literals| < 0x10_0000 && |seqs| < 0x7F00 + 0x1_0000
    ensures forall i :: 0 <= i < |seqs| ==> SeqOk(seqs[i])
  {
    forall i | 0 <= i < |seqs| ensures SeqOk(seqs[i]) {
      assert InRange(seqs[i], |data|);
    }
  }
}
