/** The zstd encoder's frames, and the round trip of the whole codec. The content hash is a parameter. */
module ZstdFrame {
  import opened Bytes
  import opened LittleEndian
  import opened ZstdLz
  import opened ZstdSequences
  import opened ZstdFormat
  import opened ZstdDecode
  import opened ZstdBlock

  // ----- the frame header -----

  function SizeFlagFor(n: nat): nat {
    if n <= 0xFF then 0 else if n <= 0xFFFF + 256 then 1 else if n <= 0xFFFF_FFFF then 2 else 3
  }

  /** A single segment with checksum and content size. */
  function HeaderFor(n: nat): Header {
    Header(true, true, 0, 0, 0, 0, SizeFlagFor(n), n)
  }

  lemma HeaderForOk(n: nat)
    requires n < 0x1_0000_0000_0000_0000
    ensures HeaderOk(HeaderFor(n)) && (Accepted(HeaderFor(n)) <==> n <= MAX_WINDOW)
    ensures ContentSize(HeaderFor(n)) == Some(n)
    ensures HeaderBytes(HeaderFor(n))
         == Le(MAGIC, 4) + ([SizeFlagFor(n) * 64 + 36] + Le(n - SizeBase(HeaderFor(n)), SizeWidth(HeaderFor(n))))
  {
    hide Le;
    Sizes();
    NoBytes();
    var size := Le(n - SizeBase(HeaderFor(n)), SizeWidth(HeaderFor(n)));
    assert [] + size == size;
  }

  lemma NoBytes()
    ensures Le(0, 0) == [] && Pow256(0) == 1
  {
  }

  method WriteHeader(n: nat) returns (output: seq<Byte>)
    requires n < 0x1_0000_0000_0000_0000
    ensures HeaderOk(HeaderFor(n)) && output == HeaderBytes(HeaderFor(n))
  {
    hide HeaderBytes, HeaderOk, Le;
    HeaderForOk(n);
    output := Le(0xFD2F_B528, 4);
    var flag := if n <= 0xFF then 0 else if n <= 0xFFFF + 256 then 1 else if n <= 0xFFFF_FFFF then 2 else 3;
    var descriptor := flag * 64 + 32 + 4;
    ghost var start := output;
    match flag {
      case 0 =>
        output := output + [descriptor];
        output := output + Le(n, 1);
        Assoc(start, [descriptor], Le(n, 1));
      case 1 =>
        output := output + [descriptor];
        TwoByteSize(n);
        output := output + Le((n % 0x1_0000 + 0x1_0000 - 256) % 0x1_0000, 2);
        Assoc(start, [descriptor], Le(n - 256, 2));
      case 2 =>
        output := output + [descriptor];
        output := output + Le(n, 4);
        Assoc(start, [descriptor], Le(n, 4));
      case _ =>
        output := output + [descriptor];
        output := output + Le(n, 8);
        Assoc(start, [descriptor], Le(n, 8));
    }
  }

  /** The subtraction in 16 bits. */
  lemma TwoByteSize(n: nat)
    requires 256 <= n <= 0xFFFF + 256
    ensures (n % 0x1_0000 + 0x1_0000 - 256) % 0x1_0000 == n - 256
  {
    assert n % 0x1_0000 == if n < 0x1_0000 then n else n - 0x1_0000;
  }

  // ----- blocks -----

  /** A block is written compressed if that is shorter. */
  ghost predicate Shrinks(chunk: seq<Byte>) {
    BlockSize(chunk) < |chunk|
  }

  /** The block the encoder writes for a chunk of the data. */
  ghost predicate Encodes(b: Block, chunk: seq<Byte>) {
    && |chunk| <= MAX_BLOCK_SIZE && BlockShape(b)
    && if Shrinks(chunk) then Packs(b, Matches(chunk).0, Matches(chunk).1) else b == RawBlock(chunk)
  }

  /** Nothing comes back where the original panics. */
  method EncodeBlock(chunk: seq<Byte>, last: bool) returns (r: Option<seq<Byte>>, ghost b: Block)
    requires |chunk| <= MAX_BLOCK_SIZE
    ensures r.Some? <==> Compressible(chunk)
    ensures r.Some? ==> Encodes(b, chunk) && r.value == BlockBytes(b, last)
  {
    hide Compressible, Matches, BlockSize, Gives, PackedBytes, Le;
    var compressed, packed := EncodeCompressedBlock(chunk);
    b := RawBlock(chunk);
    if compressed.None? {
      return None, b;
    }
    var body := compressed.value;
    if |body| < |chunk| {
      b := packed;
      assert b.section.Some? ==> SectionShape(b.section.value) by { PacksShape(b, Matches(chunk).0, Matches(chunk).1); }
      return Some(Le((if last then 1 else 0) + 2 * 2 + 8 * |body|, 3) + body), b;
    }
    return Some(Le((if last then 1 else 0) + 8 * |chunk|, 3) + chunk), b;
  }

  lemma PacksShape(b: Block, seqs: seq<Sequence>, literals: seq<Byte>)
    requires Packs(b, seqs, literals)
    ensures LiteralsShape(b.literals) && SectionShape(b.section.value)
  {
  }

  // ----- the blocks of a frame -----

  /** Where block `k` starts. */
  function Start(input: seq<Byte>, k: nat): (n: nat)
    ensures n <= |input|
  {
    if k * MAX_BLOCK_SIZE < |input| then k * MAX_BLOCK_SIZE else |input|
  }

  function NumBlocks(input: seq<Byte>): nat {
    if input == [] then 1 else (|input| + MAX_BLOCK_SIZE - 1) / MAX_BLOCK_SIZE
  }

  function Chunk(input: seq<Byte>, k: nat): (c: seq<Byte>)
    ensures |c| <= MAX_BLOCK_SIZE
  {
    input[Start(input, k)..Start(input, k + 1)]
  }

  lemma ChunkEnds(input: seq<Byte>, k: nat)
    ensures Start(input, k) <= Start(input, k + 1) && Start(input, 0) == 0
    ensures input[..Start(input, k)] + Chunk(input, k) == input[..Start(input, k + 1)]
    ensures k >= NumBlocks(input) ==> Start(input, k) == |input|
    ensures k + 1 < NumBlocks(input) ==> Start(input, k + 1) < |input|
  {
  }

  ghost predicate AllCompressible(input: seq<Byte>) {
    forall k :: 0 <= k < NumBlocks(input) ==> Compressible(Chunk(input, k))
  }

  /** The blocks are those of the chunks of the data. */
  ghost predicate BlocksEncode(input: seq<Byte>, bs: seq<Block>) {
    |bs| == NumBlocks(input) && forall k :: 0 <= k < |bs| ==> Encodes(bs[k], Chunk(input, k))
  }

  /** Blocks in a row, only the last one of the data marked as such. */
  ghost function BlocksFrom(input: seq<Byte>, bs: seq<Block>, k: nat): seq<Byte>
    requires forall i :: 0 <= i < |bs| ==> BlockShape(bs[i])
    decreases |bs| - k
  {
    if k >= |bs| then [] else BlockBytes(bs[k], k + 1 == NumBlocks(input)) + BlocksFrom(input, bs, k + 1)
  }

  lemma {:induction false} OneMoreBlock(input: seq<Byte>, bs: seq<Block>, b: Block, k: nat)
    requires k <= |bs| && BlockShape(b) && forall i :: 0 <= i < |bs| ==> BlockShape(bs[i])
    ensures BlocksFrom(input, bs + [b], k) == BlocksFrom(input, bs, k) + BlockBytes(b, |bs| + 1 == NumBlocks(input))
    decreases |bs| - k
  {
    hide BlockBytes, BlockShape;
    var more := bs + [b];
    if k < |bs| {
      OneMoreBlock(input, bs, b, k + 1);
      Assoc(BlockBytes(bs[k], k + 1 == NumBlocks(input)), BlocksFrom(input, bs, k + 1),
          BlockBytes(b, |bs| + 1 == NumBlocks(input)));
    } else {
      assert BlocksFrom(input, more, k + 1) == [];
      var last := BlockBytes(b, |bs| + 1 == NumBlocks(input));
      assert last + [] == [] + last;
    }
  }

  function FrameFor(input: seq<Byte>, bs: seq<Block>, hash: seq<Byte> -> nat): Frame {
    Frame(HeaderFor(|input|), bs, hash(input) % 0x1_0000_0000)
  }

  ghost function FrameBytes(input: seq<Byte>, bs: seq<Block>, hash: seq<Byte> -> nat): seq<Byte>
    requires HeaderOk(HeaderFor(|input|)) && forall i :: 0 <= i < |bs| ==> BlockShape(bs[i])
  {
    HeaderBytes(HeaderFor(|input|)) + (BlocksFrom(input, bs, 0) + Le(hash(input) % 0x1_0000_0000, 4))
  }

  method EncodeFrame(input: seq<Byte>, hash: seq<Byte> -> nat) returns (r: Option<seq<Byte>>, ghost bs: seq<Block>)
    requires |input| < 0x1_0000_0000_0000_0000
    ensures r.Some? <==> AllCompressible(input)
    ensures r.Some? ==>
        HeaderOk(HeaderFor(|input|)) && BlocksEncode(input, bs) && r.value == FrameBytes(input, bs, hash)
  {
    hide BlockShape, BlockBytes, Compressible, HeaderBytes, HeaderOk, Le, Shrinks, Packs, Start, NumBlocks, Chunk;
    NoChunks(input);
    var header := WriteHeader(|input|);
    var output := header;
    bs := [];
    if input == [] {
      EmptyBlock();
      bs := [RawBlock([])];
      output := output + Le(1, 3);
      OneMoreBlock(input, [], RawBlock([]), 0);
      assert [] + [RawBlock([])] == [RawBlock([])];
      assert [] + Le(1, 3) == Le(1, 3);
    } else {
      var pos := 0;
      while pos < |input|
        invariant |bs| <= NumBlocks(input) && pos == Start(input, |bs|)
        invariant pos == |input| ==> |bs| == NumBlocks(input)
        invariant forall k :: 0 <= k < |bs| ==> Encodes(bs[k], Chunk(input, k)) && Compressible(Chunk(input, k))
        invariant output == header + BlocksFrom(input, bs, 0)
        decreases |input| - pos
      {
        NextChunk(input, |bs|, pos);
        var end := if pos + MAX_BLOCK_SIZE < |input| then pos + MAX_BLOCK_SIZE else |input|;
        var chunk := input[pos..end];
        var block, b := EncodeBlock(chunk, end == |input|);
        if block.None? {
          return None, bs;
        }
        OneMoreBlock(input, bs, b, 0);
        Assoc(header, BlocksFrom(input, bs, 0), block.value);
        bs := bs + [b];
        output := output + block.value;
        pos := end;
      }
    }
    var checksum := hash(input) % 0x1_0000_0000;
    Assoc(header, BlocksFrom(input, bs, 0), Le(checksum, 4));
    r := Some(output + Le(checksum, 4));
  }

  /** The chunk that starts at `pos`. */
  lemma NextChunk(input: seq<Byte>, k: nat, pos: nat)
    requires pos == Start(input, k) < |input|
    ensures var end := if pos + MAX_BLOCK_SIZE < |input| then pos + MAX_BLOCK_SIZE else |input|;
      && end == Start(input, k + 1) && input[pos..end] == Chunk(input, k) && pos < end
      && k + 1 <= NumBlocks(input) && (end == |input| <==> k + 1 == NumBlocks(input))
  {
  }

  lemma NoChunks(input: seq<Byte>)
    ensures Start(input, 0) == 0 && NumBlocks(input) > 0
    ensures input == [] ==> NumBlocks(input) == 1 && Chunk(input, 0) == []
  {
  }

  /** No data at all is written as an empty raw block. */
  lemma EmptyBlock()
    ensures Compressible([]) && Encodes(RawBlock([]), []) && BlockBytes(RawBlock([]), true) == Le(1, 3)
  {
    hide Le;
    assert Le(1, 3) + [] == Le(1, 3);
  }

  // ----- what the blocks stand for -----

  /** One block, decoded onto an output with the recent offsets `h`. */
  ghost function PlayChunk(chunk: seq<Byte>, output: seq<Byte>, h: History): Option<(seq<Byte>, History)> {
    if Shrinks(chunk) then Execute(Matches(chunk).0, Matches(chunk).1, output, h) else Some((output + chunk, h))
  }

  /** The blocks from `k` on, the recent offsets carried from each to the next. */
  ghost function PlayChunks(input: seq<Byte>, k: nat, output: seq<Byte>, h: History): Option<seq<Byte>>
    decreases NumBlocks(input) - k
  {
    if k >= NumBlocks(input) then Some(output)
    else
      match PlayChunk(Chunk(input, k), output, h)
      case None => None
      case Some((next, h')) => PlayChunks(input, k + 1, next, h')
  }

  /** Every block from `k` on, executed behind the right data from the recent offsets that the blocks
      before it leave, gives the data of the block. */
  ghost predicate Faithful(input: seq<Byte>, k: nat, h: History)
    decreases NumBlocks(input) - k
  {
    k >= NumBlocks(input) ||
    match PlayChunk(Chunk(input, k), input[..Start(input, k)], h)
    case None => false
    case Some((next, h')) => next == input[..Start(input, k + 1)] && Faithful(input, k + 1, h')
  }

  /** A block started from offsets 1, 4, 8 comes out right. */
  lemma FromStart(chunk: seq<Byte>, output: seq<Byte>)
    ensures PlayChunk(chunk, output, START).Some? && PlayChunk(chunk, output, START).value.0 == output + chunk
  {
    hide Matches, Execute, BlockSize;
    MatchesRepresent(chunk);
    var h :| Yields(chunk, Matches(chunk).0, Matches(chunk).1, h);
  }

  /** Started from other offsets it can come out wrong, but never longer or shorter. */
  lemma SameLength(chunk: seq<Byte>, output: seq<Byte>, h: History)
    requires PlayChunk(chunk, output, h).Some?
    ensures |PlayChunk(chunk, output, h).value.0| == |output| + |chunk|
    ensures output <= PlayChunk(chunk, output, h).value.0
  {
    hide Matches, BlockSize;
    FromStart(chunk, output);
    if Shrinks(chunk) {
      ExecuteLength(Matches(chunk).0, Matches(chunk).1, output, h, START);
    }
  }

  lemma {:induction false} PlayExtends(input: seq<Byte>, k: nat, output: seq<Byte>, h: History)
    requires PlayChunks(input, k, output, h).Some?
    ensures output <= PlayChunks(input, k, output, h).value
    decreases NumBlocks(input) - k
  {
    hide PlayChunk;
    if k < NumBlocks(input) {
      var (next, h') := PlayChunk(Chunk(input, k), output, h).value;
      SameLength(Chunk(input, k), output, h);
      PlayExtends(input, k + 1, next, h');
    }
  }

  /** A wrong block cannot be made good by a later one: the whole comes out right exactly if every
      block does. */
  lemma {:induction false} PlayRight(input: seq<Byte>, k: nat, h: History)
    ensures PlayChunks(input, k, input[..Start(input, k)], h) == Some(input) <==> Faithful(input, k, h)
    decreases NumBlocks(input) - k
  {
    hide PlayChunk;
    ChunkEnds(input, k);
    var output := input[..Start(input, k)];
    if k >= NumBlocks(input) {
      assert output == input;
    } else if PlayChunk(Chunk(input, k), output, h).Some? {
      var (next, h') := PlayChunk(Chunk(input, k), output, h).value;
      SameLength(Chunk(input, k), output, h);
      PlayRight(input, k + 1, h');
      if next != input[..Start(input, k + 1)] && PlayChunks(input, k + 1, next, h') == Some(input) {
        PlayExtends(input, k + 1, next, h');
      }
    }
  }

  /** One block always comes out right. */
  lemma OneBlockFaithful(input: seq<Byte>)
    requires |input| <= MAX_BLOCK_SIZE
    ensures NumBlocks(input) == 1 && Chunk(input, 0) == input && Faithful(input, 0, START)
  {
    hide PlayChunk;
    FromStart(input, []);
    assert input[..0] == [] && input[..Start(input, 1)] == input && [] + input == input;
    var (next, h) := PlayChunk(input, [], START).value;
    assert Faithful(input, 1, h);
  }

  // ----- what is written is a frame -----

  /** A block written for a chunk can follow any other, and stands for what the chunk's sequences do. */
  lemma EncodedPlays(b: Block, chunk: seq<Byte>, output: seq<Byte>, m: Memory)
    requires Encodes(b, chunk)
    ensures BlockOk(b, m)
    ensures var played, expected := PlayBlock(b, output, m), PlayChunk(chunk, output, m.offsets);
      && (played.Some? <==> expected.Some?)
      && (played.Some? ==> played.value.0 == expected.value.0 && played.value.1.offsets == expected.value.1)
  {
    hide Gives, Execute, Read, SectionOk, BlockShape, Matches, BlockSize;
    if Shrinks(chunk) {
      var seqs := Matches(chunk).0;
      if seqs == [] {
        Nothing(m);
      } else {
        GivesOk(b.section.value, seqs, m);
      }
    }
  }

  lemma Nothing(m: Memory)
    ensures SectionOk(NoSequences(1, []), m) && Read(NoSequences(1, []), m) == Some(([], m))
  {
  }

  lemma BlocksShaped(input: seq<Byte>, bs: seq<Block>)
    requires BlocksEncode(input, bs)
    ensures |bs| == NumBlocks(input) && forall k :: 0 <= k < |bs| ==> BlockShape(bs[k])
  {
    hide BlockShape, Packs, Shrinks;
    forall k | 0 <= k < |bs| ensures BlockShape(bs[k]) {
      assert Encodes(bs[k], Chunk(input, k));
    }
  }

  /** The blocks of the data stand for what its chunks do. */
  lemma {:induction false} EncodedBlocks(input: seq<Byte>, bs: seq<Block>, k: nat, output: seq<Byte>, m: Memory,
                                         rest: seq<Byte>)
    requires BlocksEncode(input, bs) && k <= |bs|
    ensures BlocksOk(bs, k, output, m) && BlocksAre(bs, k, output, m, rest, BlocksFrom(input, bs, k) + rest)
    ensures PlayBlocks(bs, k, output, m) == PlayChunks(input, k, output, m.offsets)
    decreases |bs| - k
  {
    hide Encodes, BlockOk, BlockBytes, PlayBlock, PlayChunk, Chunk, NumBlocks, BlockShape;
    BlocksShaped(input, bs);
    if k == |bs| {
      assert [] + rest == rest;
    } else {
      assert Encodes(bs[k], Chunk(input, k));
      EncodedPlays(bs[k], Chunk(input, k), output, m);
      var head := BlockBytes(bs[k], k + 1 == |bs|);
      var data := BlocksFrom(input, bs, k) + rest;
      Assoc(head, BlocksFrom(input, bs, k + 1), rest);
      assert data[|head|..] == BlocksFrom(input, bs, k + 1) + rest;
      var played := PlayBlock(bs[k], output, m);
      if played.Some? {
        EncodedBlocks(input, bs, k + 1, played.value.0, played.value.1, rest);
      }
    }
  }

  /** The frame written for the data stands for what its chunks do, if that is the data. */
  lemma EncodedFrame(input: seq<Byte>, bs: seq<Block>, hash: seq<Byte> -> nat)
    requires |input| <= MAX_WINDOW && HeaderOk(HeaderFor(|input|)) && BlocksEncode(input, bs)
    ensures FrameAhead(FrameFor(input, bs, hash), [], FrameBytes(input, bs, hash), [])
    ensures PlayFrame(FrameFor(input, bs, hash), [], hash) == Some(input)
       <==> PlayChunks(input, 0, [], START) == Some(input)
  {
    hide HeaderBytes, HeaderOk, BlocksOk, BlocksAre, PlayBlocks, PlayChunks, BlocksFrom, Le, Encodes, Accepted;
    hide ContentSize;
    HeaderForOk(|input|);
    BlocksShaped(input, bs);
    var header, blocks, sum := HeaderBytes(HeaderFor(|input|)), BlocksFrom(input, bs, 0),
        Le(hash(input) % 0x1_0000_0000, 4);
    EncodedBlocks(input, bs, 0, [], FRESH, sum + []);
    assert sum + [] == sum;
    assert (header + (blocks + sum))[|header|..] == blocks + sum;
    assert input[0..] == input;
  }

  lemma OnePart(f: Frame, data: seq<Byte>, hash: seq<Byte> -> nat)
    requires FrameAhead(f, [], data, [])
    ensures PartsAre([Content(f)], 0, [], hash, data) && PlayParts([Content(f)], 0, [], hash) == PlayFrame(f, [], hash)
  {
    hide FrameAhead, PlayFrame;
    var ps := [Content(f)];
    if PlayFrame(f, [], hash).Some? {
      assert PartsAre(ps, 1, PlayFrame(f, [], hash).value, hash, []);
      assert PlayParts(ps, 1, PlayFrame(f, [], hash).value, hash) == PlayFrame(f, [], hash);
    }
  }

  /** Compressing and decompressing, for any number of blocks: the data comes back exactly if what is
      found in every block can be coded, and every block comes out right from the recent offsets
      that the blocks before it leave. One block always does. */
  method ZstdRoundTrip(input: seq<Byte>, hash: seq<Byte> -> nat) returns (back: Option<seq<Byte>>)
    requires |input| <= MAX_WINDOW
    ensures back == Some(input) <==> AllCompressible(input) && Faithful(input, 0, START)
    ensures |input| <= MAX_BLOCK_SIZE ==> back == if Compressible(input) then Some(input) else None
  {
    hide BlocksEncode, FrameBytes, Compressible, Faithful, Chunk, FrameAhead, PlayFrame, PlayChunks, PartsAre;
    hide PlayParts;
    var encoded, bs := EncodeFrame(input, hash);
    if |input| <= MAX_BLOCK_SIZE {
      OneBlockFaithful(input);
    }
    if encoded.None? {
      return None;
    }
    ghost var f := FrameFor(input, bs, hash);
    EncodedFrame(input, bs, hash);
    OnePart(f, encoded.value, hash);
    PlayRight(input, 0, START);
    assert input[..0] == [];
    back := Decompress(encoded.value, hash, [Content(f)]);
  }
}
