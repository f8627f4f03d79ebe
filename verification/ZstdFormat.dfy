/** Zstandard data as the format defines it (section 3.1 of RFC 8878), and what it stands for: frames
    of raw, run-length and compressed blocks behind any form of header, skippable frames between
    them. */
module ZstdFormat {
  import opened Bytes
  import opened LittleEndian
  import opened ZstdFse
  import opened ZstdBits
  import opened ZstdLz
  import opened ZstdSequences
  import opened ZstdTables
  import opened ZstdLiterals

  const MAX_BLOCK_SIZE: nat := 131072
  const MAX_WINDOW: nat := 0x4000_0000
  const MAGIC: nat := 0xFD2F_B528
  const SKIPPABLE_MAGIC: nat := 0x184D_2A50

  const LL_MAX_SYMBOL: nat := 35
  const OF_MAX_SYMBOL: nat := 31
  const ML_MAX_SYMBOL: nat := 52
  const LL_MAX_AL: nat := 9
  const OF_MAX_AL: nat := 8
  const ML_MAX_AL: nat := 9

  const LL_DEFAULT_DIST: seq<int> :=
    [4, 3] + Rep<int>(2, 11) + Rep<int>(1, 3) + Rep<int>(2, 9) + [3, 2] + Rep<int>(1, 5) + Rep<int>(-1, 4)
  const ML_DEFAULT_DIST: seq<int> := [1, 4, 3] + Rep<int>(2, 6) + Rep<int>(1, 37) + Rep<int>(-1, 7)
  const OF_DEFAULT_DIST: seq<int> := Rep<int>(1, 6) + Rep<int>(2, 3) + Rep<int>(1, 15) + Rep<int>(-1, 5)

  const LL_KIND: TableKind := TableKind(LL_DEFAULT_DIST, 6, LL_MAX_SYMBOL, LL_MAX_AL)
  const OF_KIND: TableKind := TableKind(OF_DEFAULT_DIST, 5, OF_MAX_SYMBOL, OF_MAX_AL)
  const ML_KIND: TableKind := TableKind(ML_DEFAULT_DIST, 6, ML_MAX_SYMBOL, ML_MAX_AL)

  /** What lasts from one block of a frame to the next. */
  datatype Memory = Memory(tree: Option<Tree>, ll: Option<Table>, of: Option<Table>, ml: Option<Table>,
                           offsets: History)

  const FRESH: Memory := Memory(None, None, None, None, START)

  // ----- literals -----

  /** Literals as they are, or one byte repeated, behind a header of one to three bytes; or Huffman-coded, in
      one stream or four, with weights of their own or with the tree of the literals before. */
  datatype Literals =
    | RawLiterals(width: nat, bytes: seq<Byte>)
    | SameLiterals(width: nat, byte: Byte, n: nat)
    | HuffLiterals(format: nat, weights: Option<WeightSpec>, streams: seq<seq<Byte>>, symbols: seq<Byte>)

  predicate SizeFits(width: nat, n: nat) {
    (width == 1 && n < 32) || (width == 2 && n < 4096) || (width == 3 && n < 0x10_0000)
  }

  /** Type and size format in the low bits, then the size. */
  function LiteralsHead(kind: nat, width: nat, n: nat): (r: seq<Byte>)
    requires kind < 4 && SizeFits(width, n)
    ensures |r| == width
  {
    if width == 1 then [kind + n * 8]
    else if width == 2 then
      var h := kind + 4 + n * 16;
      [h % 256, h / 256]
    else
      var h := kind + 12 + n * 16;
      [h % 256, h / 256 % 256, h / 65536]
  }

  /** What each of the two sizes of Huffman-coded literals stays below. */
  function SizeLimit(format: nat): nat {
    if format < 2 then 0x400 else if format == 2 then 0x4000 else 0x4_0000
  }

  function HuffWidth(format: nat): nat {
    if format < 2 then 3 else if format == 2 then 4 else 5
  }

  /** Type and size format, then both sizes. */
  function HuffHead(kind: nat, format: nat, n: nat, packed: nat): seq<Byte> {
    Le(kind + 4 * format + 16 * (n + SizeLimit(format) * packed), HuffWidth(format))
  }

  ghost predicate HuffShape(l: Literals)
    requires l.HuffLiterals?
  {
    && l.format < 4 && (l.weights.Some? ==> WeightsOk(l.weights.value))
    && |l.streams| == (if l.format == 0 then 1 else 4)
    && |l.symbols| < SizeLimit(l.format) && |HuffBody(l)| < SizeLimit(l.format)
  }

  ghost function HuffBody(l: Literals): seq<Byte>
    requires l.HuffLiterals? && (l.weights.Some? ==> WeightsOk(l.weights.value))
    requires |l.streams| == (if l.format == 0 then 1 else 4)
  {
    (if l.weights.Some? then WeightBytes(l.weights.value) else [])
    + if l.format == 0 then l.streams[0] else FourBytes(l.streams)
  }

  ghost predicate LiteralsShape(l: Literals) {
    match l
    case RawLiterals(width, bytes) => SizeFits(width, |bytes|)
    case SameLiterals(width, _, n) => SizeFits(width, n)
    case HuffLiterals(_, _, _, _) => HuffShape(l)
  }

  ghost function LiteralsBytes(l: Literals): (r: seq<Byte>)
    requires LiteralsShape(l)
    ensures r != []
  {
    match l
    case RawLiterals(width, bytes) => LiteralsHead(0, width, |bytes|) + bytes
    case SameLiterals(width, byte, n) => LiteralsHead(1, width, n) + [byte]
    case HuffLiterals(format, weights, _, symbols) =>
      HuffHead(if weights.Some? then 2 else 3, format, |symbols|, |HuffBody(l)|) + HuffBody(l)
  }

  /** The tree of the literals, if their weights can be completed, or of those before, if there are any. */
  ghost function TreeFor(l: Literals, m: Memory): Option<Tree>
    requires l.HuffLiterals?
  {
    if l.weights.Some? then TreeOf(l.weights.value.weights) else m.tree
  }

  /** The literals can follow blocks that have left `m`. */
  ghost predicate LiteralsOk(l: Literals, m: Memory) {
    && LiteralsShape(l)
    && (l.HuffLiterals? && TreeFor(l, m).Some? ==>
          var tree := TreeFor(l, m).value;
          if l.format == 0 then AllCoded(tree, l.symbols) && IsStream(l.streams[0], Codewords(tree, l.symbols))
          else FourStreams(tree, l.streams, l.symbols))
  }

  /** The literals, and the tree from then on. */
  ghost function ReadLiterals(l: Literals, m: Memory): Option<(seq<Byte>, Memory)> {
    match l
    case RawLiterals(_, bytes) => Some((bytes, m))
    case SameLiterals(_, byte, n) => Some((Rep<Byte>(byte, n), m))
    case HuffLiterals(_, _, _, symbols) =>
      if TreeFor(l, m).None? then None else Some((symbols, m.(tree := TreeFor(l, m))))
  }

  // ----- sequences -----

  /** No sequences, and whatever follows; or their number, the modes and tables, and the bit stream. */
  datatype Section =
    | NoSequences(width: nat, junk: seq<Byte>)
    | Sequenced(width: nat, ll: TableSpec, of: TableSpec, ml: TableSpec, low: nat, stream: seq<Byte>, plan: Plan)

  /** The number of sequences in one, two or three bytes. */
  predicate CountFits(width: nat, n: nat) {
    (width == 1 && n < 128) || (width == 2 && n < 0x7F00) || (width == 3 && 0x7F00 <= n < 0x7F00 + 0x1_0000)
  }

  function CountForm(width: nat, n: nat): (r: seq<Byte>)
    requires CountFits(width, n)
    ensures |r| == width
  {
    if width == 1 then [n]
    else if width == 2 then [n / 256 + 128, n % 256]
    else [255, (n - 0x7F00) % 256, (n - 0x7F00) / 256]
  }

  /** Two bits for each mode; the lowest two are not used. */
  function ModesByte(ll: nat, of: nat, ml: nat, low: nat): Byte
    requires ll < 4 && of < 4 && ml < 4 && low < 4
  {
    ll * 64 + of * 16 + ml * 4 + low
  }

  /** The three tables, if there are. */
  function TablesFor(s: Section, m: Memory): Option<Tables>
    requires s.Sequenced?
  {
    var ll, of, ml := SpecTable(s.ll, LL_KIND, m.ll), SpecTable(s.of, OF_KIND, m.of), SpecTable(s.ml, ML_KIND, m.ml);
    if ll.Some? && of.Some? && ml.Some? then Some(Tables(ll.value, of.value, ml.value)) else None
  }

  predicate SectionShape(s: Section) {
    match s
    case NoSequences(width, _) => width == 1 || width == 2
    case Sequenced(width, _, _, _, low, _, plan) => low < 4 && plan.seqs != [] && CountFits(width, |plan.seqs|)
  }

  /** The section can follow blocks that have left `m`. */
  ghost predicate SectionOk(s: Section, m: Memory) {
    SectionShape(s) &&
    match s
    case NoSequences(_, _) => true
    case Sequenced(_, ll, of, ml, _, stream, plan) =>
      && SpecOk(ll, LL_KIND) && SpecOk(of, OF_KIND) && SpecOk(ml, ML_KIND)
      && (TablesFor(s, m).Some? ==> PlanOk(plan) && plan.t == TablesFor(s, m).value && IsStream(stream, Stream(plan)))
  }

  function SectionBytes(s: Section): (r: seq<Byte>)
    requires SectionShape(s)
    ensures r != []
  {
    match s
    case NoSequences(width, junk) => CountForm(width, 0) + junk
    case Sequenced(width, ll, of, ml, low, stream, plan) =>
      CountForm(width, |plan.seqs|)
      + ([ModesByte(Mode(ll), Mode(of), Mode(ml), low)] + (SpecBytes(ll) + (SpecBytes(of) + (SpecBytes(ml) + stream))))
  }

  /** The sequences, and the tables from then on. */
  function Read(s: Section, m: Memory): Option<(seq<Sequence>, Memory)> {
    match s
    case NoSequences(_, _) => Some(([], m))
    case Sequenced(_, _, _, _, _, _, plan) =>
      var t := TablesFor(s, m);
      if t.None? then None
      else Some((plan.seqs, Memory(m.tree, Some(t.value.ll), Some(t.value.of), Some(t.value.ml), m.offsets)))
  }

  // ----- blocks -----

  /** A compressed block can end behind its literals. */
  datatype Block =
    | RawBlock(bytes: seq<Byte>)
    | RunBlock(byte: Byte, n: nat)
    | PackedBlock(literals: Literals, section: Option<Section>)

  ghost predicate BlockShape(b: Block) {
    match b
    case RawBlock(bytes) => |bytes| < 0x20_0000
    case RunBlock(_, n) => n < 0x20_0000
    case PackedBlock(literals, section) =>
      && LiteralsShape(literals) && (section.Some? ==> SectionShape(section.value))
      && |PackedBytes(literals, section)| < 0x20_0000
  }

  /** The block can follow blocks that have left `m`. */
  ghost predicate BlockOk(b: Block, m: Memory) {
    && BlockShape(b)
    && (b.PackedBlock? ==>
          LiteralsOk(b.literals, m) &&
          var read := ReadLiterals(b.literals, m);
          read.Some? && b.section.Some? ==> SectionOk(b.section.value, read.value.1))
  }

  ghost function PackedBytes(literals: Literals, section: Option<Section>): seq<Byte>
    requires LiteralsShape(literals) && (section.Some? ==> SectionShape(section.value))
  {
    LiteralsBytes(literals) + if section.Some? then SectionBytes(section.value) else []
  }

  function Flag(b: bool): nat {
    if b then 1 else 0
  }

  /** Last block or not, type and size in three bytes; of a run the size is the number of repetitions. */
  ghost function BlockBytes(b: Block, last: bool): seq<Byte>
    requires BlockShape(b)
  {
    match b
    case RawBlock(bytes) => Le(Flag(last) + 8 * |bytes|, 3) + bytes
    case RunBlock(byte, n) => Le(Flag(last) + 2 + 8 * n, 3) + [byte]
    case PackedBlock(literals, section) =>
      var body := PackedBytes(literals, section);
      Le(Flag(last) + 4 + 8 * |body|, 3) + body
  }

  /** What a block appends to the output, and what it leaves for later ones. */
  ghost function PlayBlock(b: Block, output: seq<Byte>, m: Memory): Option<(seq<Byte>, Memory)> {
    match b
    case RawBlock(bytes) => Some((output + bytes, m))
    case RunBlock(byte, n) => Some((output + Rep<Byte>(byte, n), m))
    case PackedBlock(literals, section) =>
      var lits := ReadLiterals(literals, m);
      if lits.None? then None
      else if section.None? then Some((output + lits.value.0, lits.value.1))
      else
        var read := Read(section.value, lits.value.1);
        if read.None? then None
        else
          var done := Execute(read.value.0, lits.value.0, output, m.offsets);
          if done.None? then None else Some((done.value.0, read.value.1.(offsets := done.value.1)))
  }

  /** Every block, as far as decoding gets, is one that can follow those before it. */
  ghost predicate BlocksOk(bs: seq<Block>, k: nat, output: seq<Byte>, m: Memory)
    decreases |bs| - k
  {
    k >= |bs| ||
    (BlockOk(bs[k], m) &&
     var played := PlayBlock(bs[k], output, m);
     played.Some? ==> BlocksOk(bs, k + 1, played.value.0, played.value.1))
  }

  /** The blocks from `k` on, the last marked so. Behind a block that cannot be decoded anything may follow. */
  ghost predicate BlocksAre(bs: seq<Block>, k: nat, output: seq<Byte>, m: Memory, rest: seq<Byte>, data: seq<Byte>)
    requires BlocksOk(bs, k, output, m)
    decreases |bs| - k
  {
    if k >= |bs| then data == rest
    else
      var head := BlockBytes(bs[k], k + 1 == |bs|);
      var played := PlayBlock(bs[k], output, m);
      head <= data &&
      (played.Some? ==> BlocksAre(bs, k + 1, played.value.0, played.value.1, rest, data[|head|..]))
  }

  ghost function PlayBlocks(bs: seq<Block>, k: nat, output: seq<Byte>, m: Memory): Option<seq<Byte>>
    decreases |bs| - k
  {
    if k >= |bs| then Some(output)
    else
      var played := PlayBlock(bs[k], output, m);
      if played.None? then None else PlayBlocks(bs, k + 1, played.value.0, played.value.1)
  }

  // ----- the frame header -----

  /** `window` is its descriptor byte, absent in a single-segment frame; the dictionary id and the content
      size have the widths their flags say. `spare` are the two descriptor bits without a meaning here. */
  datatype Header = Header(single: bool, checksum: bool, spare: nat, window: Byte, dictFlag: nat, dictId: nat,
                           sizeFlag: nat, size: nat)

  function DictWidth(h: Header): nat { if h.dictFlag == 3 then 4 else h.dictFlag }

  function SizeWidth(h: Header): nat {
    if h.sizeFlag == 0 then Flag(h.single) else if h.sizeFlag == 1 then 2 else if h.sizeFlag == 2 then 4 else 8
  }

  /** Two-byte sizes count from 256. */
  function SizeBase(h: Header): nat { if SizeWidth(h) == 2 then 256 else 0 }

  predicate HeaderOk(h: Header) {
    && h.spare < 4 && h.dictFlag < 4 && h.sizeFlag < 4 && h.dictId < Pow256(DictWidth(h))
    && SizeBase(h) <= h.size && h.size - SizeBase(h) < Pow256(SizeWidth(h))
  }

  function Descriptor(h: Header): Byte
    requires HeaderOk(h)
  {
    h.sizeFlag * 64 + Flag(h.single) * 32 + h.spare * 8 + Flag(h.checksum) * 4 + h.dictFlag
  }

  function HeaderBytes(h: Header): seq<Byte>
    requires HeaderOk(h)
  {
    Le(MAGIC, 4) + ([Descriptor(h)] + ((if h.single then [] else [h.window])
    + (Le(h.dictId, DictWidth(h)) + Le(h.size - SizeBase(h), SizeWidth(h)))))
  }

  function ContentSize(h: Header): Option<nat> {
    if SizeWidth(h) == 0 then None else Some(h.size)
  }

  /** The window: the content size, or a power of two and some eighths of it. */
  function Window(h: Header): nat {
    if h.single then h.size
    else Pow2(10 + h.window / 8) + Pow2(10 + h.window / 8) / 8 * (h.window % 8)
  }

  /** Dictionaries are not supported, nor are windows above 2^30. */
  predicate Accepted(h: Header) { h.dictId == 0 && Window(h) <= MAX_WINDOW }

  // ----- frames -----

  datatype Frame = Frame(header: Header, blocks: seq<Block>, sum: nat)

  /** The frame as it appears in the data: behind a header that is not accepted, or a block that cannot be
      decoded, anything may follow. */
  ghost predicate FrameAhead(f: Frame, output: seq<Byte>, data: seq<Byte>, rest: seq<Byte>) {
    && HeaderOk(f.header) && f.sum < 0x1_0000_0000 && HeaderBytes(f.header) <= data
    && (Accepted(f.header) ==>
          f.blocks != [] && BlocksOk(f.blocks, 0, output, FRESH) &&
          BlocksAre(f.blocks, 0, output, FRESH, SumBytes(f) + rest, data[|HeaderBytes(f.header)|..]))
  }

  function SumBytes(f: Frame): seq<Byte> {
    if f.header.checksum then Le(f.sum, 4) else []
  }

  /** The output with the content of the frame behind it. The checksum and the content size, where the
      frame has them, must be those of the content. */
  ghost function PlayFrame(f: Frame, output: seq<Byte>, hash: seq<Byte> -> nat): Option<seq<Byte>> {
    if !Accepted(f.header) then None
    else
      var played := PlayBlocks(f.blocks, 0, output, FRESH);
      if played.None? || |played.value| < |output| then None
      else
        var content := played.value[|output|..];
        if f.header.checksum && f.sum != hash(content) % 0x1_0000_0000 then None
        else if ContentSize(f.header).Some? && ContentSize(f.header).value != |content| then None
        else Some(played.value)
  }

  // ----- frames in a row -----

  datatype Part = Content(f: Frame) | Skipped(low: nat, payload: seq<Byte>)

  /** A skippable frame: one of sixteen magic numbers, a length, and as many bytes. */
  function SkippedBytes(low: nat, payload: seq<Byte>): seq<Byte>
    requires low < 16 && |payload| < 0x1_0000_0000
  {
    Le(SKIPPABLE_MAGIC + low, 4) + (Le(|payload|, 4) + payload)
  }

  /** The data from part `k` on. Behind the last part there are fewer than four bytes, which are ignored. */
  ghost predicate PartsAre(ps: seq<Part>, k: nat, output: seq<Byte>, hash: seq<Byte> -> nat, data: seq<Byte>)
    decreases |ps| - k
  {
    if k >= |ps| then |data| < 4
    else
      match ps[k]
      case Content(f) =>
        exists rest ::
          FrameAhead(f, output, data, rest) &&
          (PlayFrame(f, output, hash).Some? ==> PartsAre(ps, k + 1, PlayFrame(f, output, hash).value, hash, rest))
      case Skipped(low, payload) =>
        && low < 16 && |payload| < 0x1_0000_0000 && SkippedBytes(low, payload) <= data
        && PartsAre(ps, k + 1, output, hash, data[|SkippedBytes(low, payload)|..])
  }

  ghost function PlayParts(ps: seq<Part>, k: nat, output: seq<Byte>, hash: seq<Byte> -> nat): Option<seq<Byte>>
    decreases |ps| - k
  {
    if k >= |ps| then Some(output)
    else
      match ps[k]
      case Skipped(_, _) => PlayParts(ps, k + 1, output, hash)
      case Content(f) =>
        var played := PlayFrame(f, output, hash);
        if played.None? then None else PlayParts(ps, k + 1, played.value, hash)
  }
}
