# Verification models for armybox

Dafny models of the codec and language engines of armybox, with proofs about all inputs. Each module
models one component; methods with loops and fields follow the original's loops and fields, and are
proved against a specification that says what they are for.

| Files | Component |
|---|---|
| `RegexSyntax.dfy`, `RegexWays.dfy`, `RegexMeaning.dfy`, `RegexGreedy.dfy` | expressions of grep and sed: what they denote, the ways through them and which is preferred |
| `RegexGrammar.dfy`, `RegexParser.dfy` | BRE and ERE grammar and parser |
| `RegexCode.dfy`, `RegexCompiler.dfy`, `RegexComplete.dfy` | the compiler with back-patching; runs of its code are ways through the expression |
| `RegexMachine.dfy`, `RegexTrace.dfy`, `RegexSearch.dfy`, `RegexPriority.dfy`, `RegexVm.dfy` | backtracking reference search, and the Pike VM that computes it |
| `RegexTheorems.dfy`, `Regex.dfy`, `RegexWord.dfy` | compiling and searching as a whole |
| `Bzip2*.dfy` | the bzip2 block: RLE1, Burrows-Wheeler transform, move-to-front, zero runs, bit streams, the block format with its decoder (`Bzip2Format.dfy`), the encoder and the composition of both (`Bzip2Block.dfy`) |
| `CanonicalHuffman.dfy` | canonical Huffman codes, for bzip2 and DEFLATE |
| `Inflate.dfy` | DEFLATE: the whole decoder, and the stored encoder |
| `Lzw.dfy`, `LsbFirst.dfy` | compress(1), and bits packed least significant first |
| `ZstdLz.dfy`, `ZstdCodes.dfy`, `ZstdBits.dfy` | zstd match finder and execution of sequences, codes, bit streams |
| `ZstdFse.dfy`, `ZstdNormalize.dfy`, `ZstdDescription.dfy`, `ZstdTables.dfy`, `ZstdSequences.dfy` | FSE tables, their distributions and descriptions, sequence coding |
| `ZstdHuffman.dfy`, `ZstdLiterals.dfy` | the Huffman decoding table, weights and streams of literals |
| `ZstdFormat.dfy`, `ZstdDecode.dfy` | the zstd format, and the decoder that gives what it says |
| `ZstdBlock.dfy`, `ZstdFrame.dfy`, `ZstdExamples.dfy` | the zstd encoder, the round trip, inputs that do not come back |
| `DependencyOrder.dfy`, `Resolver.dfy` | dependency resolution of the package manager |
| `PkgIndex.dfy` | the binary package index |
| `Sha256.dfy` | streaming SHA-256 |
| `Bytes.dfy`, `LittleEndian.dfy`, `Lz77.dfy` | shared arithmetic, byte order, overlapping copies |

`dafny verify dfyconfig.toml` checks everything.

## Conventions

- Error returns and panics of the original are `None`, `Err` or `false` results. Where a claim depends
  on one of them the table below says so.
- `on` and the ghost parameters beside it carry what a decoder's input was made from. A decoder runs
  on any input; its contract says what it returns on well-formed ones.
- Integers are unbounded; where the original wraps or truncates (`next_code` of LZW, the byte addition
  of zero runs, the size fields of the formats) the model does too.
- Functions named in the original as external (the content hash of zstd, the compression function of
  SHA-256, version comparison) are parameters, so the claims hold for all of them.

## Where the code does not do what one would expect

- bzip2: 255 is added to in a byte, so rank 255 comes out as a zero run. The block round trip holds
  exactly when at most 255 byte values occur in the RLE1 form. The decoder likewise keeps symbols as
  bytes: symbol 256, which only a block of all 256 byte values has, becomes 0 (`Bzip2Format.SymbolBytes`).
- bzip2: the block written for no data has groups, a selector and tables behind its empty map; the
  decoder returns before it has read them.
- gzip: no block is written for empty input, so its output cannot be inflated. The stored round trip
  holds exactly for non-empty data.
- zstd: normalizing a skewed histogram can hand out more cells than the table has and clamp the
  correction. The builder then refuses the table and compressing fails. The round trip of one block
  holds exactly when this does not happen; `ZstdExamples.ClampedInput` is an input on which it does.
- zstd: the encoder starts every block with recent offsets 1, 4, 8, the decoder carries them over. The
  round trip over several blocks holds exactly when every block comes out right all the same;
  `ZstdExamples.StaleInput` is an input of two blocks that does not come back.
- zstd: the table builder accepts descriptions that leave cells without a symbol, as long as no symbol
  has a positive probability. The cells left over are taken for symbol 0, and unless that has
  probability -1 its first cell leads out of the table; `ZstdTables.UnsafeTable` is an example. The model
  follows the release profile, in which arithmetic wraps.
- LZW: the 16-bit code counter wraps with the 65279th addition, which only 16-bit codes can reach; from
  the next one on, entries are given codes that are taken.
- grep `-w`: threads are told apart by program counter and position, so a thread that will fail the
  word test can shut out one that would pass. A match is found exactly if no earlier start has a match
  with the same end; `RegexWord.WordMissed` is an example. Without `-w` the search is complete.

## Model

| member | source | states |
|---|---|---|
| Regex.IsMatchLine | src/applets/regex.rs:942-946 | in every mode the answer is yes if and only if some match passes the tests of `-x` and `-w` and no earlier start has a match with the same end; without `-w` that means that the expression matches somewhere, with `-x` (and `-w` or not) that it matches the whole line |
| Regex.Search | src/applets/regex.rs:935-938 | what is found is the preferred match: from the leftmost start that has one, by the first way through the expression that there is, end and group spans included; ways are ordered by their decisions, an earlier branch of an alternation before a later one and one more pass of a repetition before leaving it, and never decide twice about one place at one position; no answer means no match at or after the start |
| Regex.Compile | src/applets/regex.rs:902-929 | compiling succeeds if and only if the pattern can be read to its end and the program stays within the size cap; the tree read is one the pattern spells, and the program is that of the tree between the two overall saves and Match, never one cut short, with slots for all groups |
| Regex.Decides | src/applets/regex.rs:935-946 | what can be found decides occurrence without filters, and with `-x` the match of the whole line, also with `-w` |
| Regex.GroupInMatch | src/applets/regex.rs:68-92 | every reported group has start <= end, lies in the overall match and in the text, and is a span its own sub-expression matches |
| Regex.GroupUnique | src/applets/regex.rs:205-256 | group numbers of a parsed tree are unique, so a group number determines its sub-expression |
| RegexWord.WordMissed | src/applets/regex.rs:735-795 | with `-w` the search is not complete: on the line `x a`, spaces followed by an a are not found, because the earlier start at the space has a match with the same end, although the a alone is a match between word boundaries |
| RegexVm.Exec | src/applets/regex.rs:803-888 | the Pike VM returns exactly what a depth-first backtracking search returns that tries starts in increasing order, the first branch of a split first, and every (pc, position) once; an anchored search tries one start |
| RegexVm.AddThread | src/applets/regex.rs:725-770 | appends exactly the closure of one thread, in priority order, and records exactly its program counters; it ends because each pc is marked once |
| RegexVm.Follow | src/applets/regex.rs:738-768 | the stack receives the successors of a thread so that the preferred one is popped first |
| RegexVm.AdvanceThreads | src/applets/regex.rs:837-877 | advancing the threads of a position one by one, best first, up to the first match keeps the answer of the backtracking search |
| RegexVm.SeedStart | src/applets/regex.rs:823-830 | seeding a start behind the threads carried forward, and not after a match, keeps the answer of the backtracking search |
| RegexVm.ClosureBound | src/applets/regex.rs:649-714 | a position never holds more threads than the program has instructions, all of them consuming instructions or Match |
| RegexVm.ClosureAppend | src/applets/regex.rs:725-770 | closing a list of threads in one go is closing its parts one after the other with a shared seen set |
| RegexVm.LevelByLevel | src/applets/regex.rs:803-888 | the depth-first search, standing at the threads of one position, ends like the search that first closes the position: the step from backtracking order to one position at a time |
| RegexVm.SeenSet.TestAndSet | src/applets/regex.rs:705-713 | answers whether the pc was there, and then holds exactly the old pcs and this one |
| RegexVm.SeenSet.Clear | src/applets/regex.rs:697-703 | empties the set by walking the marked entries only |
| RegexSearch.DfsSound | src/applets/regex.rs:803-888 | a result of the backtracking search is the end of a run from one of the starts that is accepted there, at a state not expanded before |
| RegexSearch.ExploredReached | src/applets/regex.rs:803-888 | whatever a fruitless search has expanded lies on a run from one of its starts |
| RegexSearch.DfsComplete | src/applets/regex.rs:803-888 | a fruitless search has explored everything that can be reached, and no goal among it, although states are visited once only |
| RegexSearch.DfsAppend | src/applets/regex.rs:803-888 | searching two stacks in a row is searching the second with the states explored by the first |
| RegexSearch.MidExpand | src/applets/regex.rs:803-888 | an item in the middle of the stack can be expanded before those at later positions in front of it |
| RegexSearch.Forget | src/applets/regex.rs:803-888 | states at earlier positions can be dropped from the visited set |
| RegexSearch.StaysDead | src/applets/regex.rs:803-888 | no run leaves an explored set that contains no goal |
| RegexPriority.DfsFirst | src/applets/regex.rs:803-888 | the backtracking search ends with a run that no other run from its starts goes before, in the order of the decisions taken; whatever it has expanded without success leads to no goal |
| RegexPriority.CleanIffFresh | src/applets/regex.rs:725-770 | a run that visits no (pc, position) twice is one whose decisions are all about different places or positions: the visited rule in terms of the expression |
| RegexCompiler.Through | src/applets/regex.rs:519-602 | a run that enters the code of an expression walks through the expression by the decisions it takes, and leaves the code with the position and slots of that walk |
| RegexMeaning.Sound | src/applets/regex.rs:519-602 | a way through an expression spans text that the expression denotes, and writes only the slots of its groups, each with a span its body denotes |
| RegexComplete.Complete | src/applets/regex.rs:519-602 | every way through an expression is taken by a run through its code, decision by decision, whatever the capture slots hold |
| RegexMeaning.Complete | src/applets/regex.rs:519-602 | for every span an expression denotes there is a way through the expression |
| RegexGreedy.Greedy | src/applets/regex.rs:564-600 | what is preferred for a repetition of a byte test is the longest: its end lies behind the end of every other match from the same start |
| RegexCompiler.CodeLands | src/applets/regex.rs:519-602 | control leaves the code of an expression only by falling off its end |
| RegexTheorems.CompiledClosed | src/applets/regex.rs:519-602 | every jump, split target and pc + 1 of a compiled program is in range |
| RegexTheorems.SlotsInRange | src/applets/regex.rs:902-929 | every slot written by a compiled program is below the number of slots |
| RegexTheorems.RunToMatch | src/applets/regex.rs:902-929 | a run of the whole program from a start to Match leaves the match in the slots: its overall span, denoted by the expression, and its groups |
| RegexTheorems.MatchHasRun | src/applets/regex.rs:902-929 | every match has a run of the whole program from its start to Match |
| RegexTheorems.ReferenceFirst | src/applets/regex.rs:803-888 | the match the search finds is the preferred one: no match starts earlier, and no way from its start goes before the one it has taken |
| RegexTheorems.SearchStarts | src/applets/regex.rs:803-888 | in every mode, trying the starts in increasing order finds the first start that has a match that passes the filters and whose end no earlier start reaches, or shows that there is none |
| RegexTheorems.ReferenceExact | src/applets/regex.rs:725-795 | the search as a whole finds exactly that, whatever `-x` and `-w` say |
| RegexTheorems.Leftmost | src/applets/regex.rs:803-888 | without filters what is found is the leftmost match: no match starts earlier |
| RegexTheorems.SearchedNext | src/applets/regex.rs:735-770 | after a fruitless start the expanded Match states are exactly the ends of the matches from the starts tried so far |
| RegexCode.Builder.Emit | src/applets/regex.rs:519-602 | emission appends exactly the code of the expression, or the program has passed the cap for good |
| RegexCode.Builder.EmitAlt | src/applets/regex.rs:542-563 | the same for an alternation, whose splits and jumps are patched afterwards |
| RegexCode.Builder.EmitRepeat | src/applets/regex.rs:588-600 | the same for an interval: the mandatory copies, then a star or the optional copies |
| RegexCode.Builder.EmitStar | src/applets/regex.rs:564-572 | the same for a star, whose split is patched to enter the body first and to leave behind the jump |
| RegexCode.Builder.EmitQuest | src/applets/regex.rs:580-587 | the same for an optional part |
| RegexCode.BlocksDifferAtJumps | src/applets/regex.rs:542-563 | the code of alternatives with and without the final jump target differs at the recorded places only |
| RegexParser.Parser.ParseAlt | src/applets/regex.rs:148-162 | the parser reads what RegexGrammar.ReadAlt reads, errors included, and the tree is one that the text consumed spells, in the grammar of RegexGrammar.SpellsAlt: branches, anchors by context, pieces with all their quantifiers; its groups are numbered in the order of their opening parentheses, and its intervals are ordered and within 32767 |
| RegexParser.Parser.ParseConcat | src/applets/regex.rs:169-203 | a branch is read up to an alternation operator, a closing parenthesis or the end, as items one after another |
| RegexParser.Parser.ParseQuant | src/applets/regex.rs:257-306 | a piece is wrapped in every quantifier that follows it, and none is left behind it |
| RegexParser.Parser.ParseClass | src/applets/regex.rs:375-468 | a bracket expression is read as its items, ranges and named classes, with a closing bracket as an ordinary byte in first place only |
| RegexGrammar.PrintingClasses | src/applets/regex.rs:471-517 | print is space to tilde; it splits into graph and space, graph into alnum and punct, alnum into alpha and digit, alpha into upper and lower, which lies 32 above upper |
| RegexGrammar.OtherClasses | src/applets/regex.rs:471-517 | cntrl is what is left of the ASCII bytes, space is blank and the bytes 10 to 13, xdigit the digits and six letters in both cases |
| RegexParser.Parser.ParseInterval | src/applets/regex.rs:313-373 | an interval is read as its digits and brace say: a bound over 32767 or bounds in the wrong order are an error, a missing brace is no interval |
| RegexParser.ReadNumber | src/applets/regex.rs:316-343 | the number read is the value of the digits, or the overflow flag says it is too large |
| RegexParser.Parser.FindPair | src/applets/regex.rs:397-412 | the first place where the delimiter is followed by a closing bracket |
| RegexSyntax.PowerAdd | src/applets/regex.rs:588-600 | copies in a row add up: m copies and then n are m + n copies |
| Bzip2Block.BlockRoundTrip | src/applets/archive/bzip2.rs:327-577 | compressing a block, empty or not, and decompressing gives the block back if and only if its RLE1 form uses at most 255 of the 256 byte values |
| Bzip2Block.CompressBlock | src/applets/archive/bzip2.rs:327-445 | writes exactly the bits of the block: origin, symbol map, groups, selectors, code lengths, coded symbols |
| Bzip2Format.DecompressBlock | src/applets/archive/bzip2.rs:447-577 | from every block with any symbol map, any two to six tables, selectors and symbols, the data its last column stands for comes back; a block without bytes or with a number of tables out of range gives nothing |
| Bzip2Block.WrittenIsBlock | src/applets/archive/bzip2.rs:327-577 | what the compressor writes is such a block |
| Bzip2Block.ColumnBack | src/applets/archive/bzip2.rs:566-577 | the last column of the sorted rotations decodes to the data |
| Bzip2Format.ReadSymbolMap | src/applets/archive/bzip2.rs:451-468 | the two-level map of used bytes gives back exactly the bytes that occur, in ascending order, also when groups without a byte are marked |
| Bzip2Format.ReadSelectors | src/applets/archive/bzip2.rs:482-503 | any list of selectors is read back from its move-to-front ranks in unary |
| Bzip2Format.ReadSymbols | src/applets/archive/bzip2.rs:534-564 | symbols coded with any tables that satisfy Kraft's inequality, the table changing with the selector every 50 symbols and the last selector staying, are read back up to the end-of-block symbol |
| Bzip2Format.ReadTable | src/applets/archive/bzip2.rs:505-526 | the code lengths that steps up and down, saturating at zero, lead to are read back |
| Bzip2Format.ReadDelta | src/applets/archive/bzip2.rs:511-522 | the bits 1 0 go one up, 1 1 one down, and 0 ends |
| Bzip2Format.AnyLengths | src/applets/archive/bzip2.rs:505-526 | for every list of lengths that fit a byte there are steps that lead to it, so every table can be read |
| Bzip2Block.SymbolsLost | src/applets/archive/bzip2.rs:744-800 | when all 256 byte values occur, what is decoded differs from what was coded |
| Bzip2Bwt.BwtRoundTrip | src/applets/archive/bzip2.rs:628-701 | bwt_inverse(bwt_transform(d)) == d for every byte string, periodic ones included |
| Bzip2Bwt.BwtTransform | src/applets/archive/bzip2.rs:628-659 | the output is the last column of the rotations in order, the origin a row equal to the data |
| Bzip2Bwt.BwtInverse | src/applets/archive/bzip2.rs:661-701 | the output is the walk through the stable counting sort of the column, for any column; an origin out of range is a crash |
| Bzip2Bwt.InverseOfTransform | src/applets/archive/bzip2.rs:661-701 | the walk through the last column gives the data back |
| Bzip2Bwt.WalkRebuilds | src/applets/archive/bzip2.rs:661-701 | the k-th row visited holds a rotation equal to rotation k of the data, even where equal rotations tie |
| Bzip2Bwt.NextRow | src/applets/archive/bzip2.rs:661-701 | following the transformation vector from a row equal to rotation r leads to a row equal to rotation r + 1 |
| Bzip2Bwt.SortingsAgree | src/applets/archive/bzip2.rs:628-659 | any two orders of the rotations agree row by row up to equal rotations |
| Bzip2Bwt.BuildTransform | src/applets/archive/bzip2.rs:668-686 | the counting sort gives the positions of the column sorted by byte, equal bytes in their order |
| Bzip2Bwt.FilledIsStable | src/applets/archive/bzip2.rs:668-686 | filling every counted slot gives a permutation that is that stable sort |
| Bzip2Rle.Rle1RoundTrip | src/applets/archive/bzip2.rs:580-626 | rle1_decode(rle1_encode(d)) == d, runs cut at 255 |
| Bzip2Rle.Rle1Encode | src/applets/archive/bzip2.rs:580-599 | the loop computes the run-length form |
| Bzip2Rle.Rle1Decode | src/applets/archive/bzip2.rs:601-626 | the loop computes the inverse form, for any input |
| Bzip2Rle.ZrleRoundTrip | src/applets/archive/bzip2.rs:744-800 | zrle_decode(zrle_encode(d)) == d as long as rank 255 does not occur |
| Bzip2Rle.DigitsRoundTrip | src/applets/archive/bzip2.rs:755-765 | bijective base-2 digits have the value of the run they stand for |
| Bzip2Rle.UnzrleBound | src/applets/archive/bzip2.rs:776-800 | no decoded rank reaches 255: the reason the largest byte is lost |
| Bzip2Rle.ZrleEncode | src/applets/archive/bzip2.rs:744-774 | the loop computes the coded ranks, with the byte addition that wraps at 255 |
| Bzip2Rle.ZrleDecode | src/applets/archive/bzip2.rs:776-800 | the loop computes the decoded ranks, for any input |
| Bzip2Mtf.MtfRoundTrip | src/applets/archive/bzip2.rs:704-742 | move-to-front decoding undoes encoding over the same symbol map |
| Bzip2Mtf.MtfEncode | src/applets/archive/bzip2.rs:704-719 | the in-place list gives the ranks |
| Bzip2Mtf.MtfDecode | src/applets/archive/bzip2.rs:721-742 | the in-place list gives the bytes of any ranks |
| Bzip2Mtf.MoveToFront | src/applets/archive/bzip2.rs:711-715 | shifting in place moves one byte to the front and keeps the order of the others |
| Bzip2Mtf.LastRank | src/applets/archive/bzip2.rs:704-719 | the last rank occurs exactly when the last symbol of the map does |
| Bzip2Mtf.LastNeverDecoded | src/applets/archive/bzip2.rs:721-742 | ranks below the last never produce the last symbol |
| Bzip2Bits.BitWriter.WriteBits | src/applets/archive/bzip2.rs:818-828 | appends the low bits of a value, the highest first |
| Bzip2Bits.BitWriter.Flush | src/applets/archive/bzip2.rs:830-836 | completes the last byte with fewer than eight zero bits |
| Bzip2Bits.BitReader.ReadBits | src/applets/archive/bzip2.rs:861-878 | returns the number made by the next bits, or by what is left at the end, and moves past them |
| Bzip2Bits.HuffmanDecoder.Decode | src/applets/archive/bzip2.rs:916-927 | reading a codeword gives its symbol and takes exactly its bits |
| CanonicalHuffman.BuildCodes | src/applets/archive/gzip.rs:678-711 | the table holds the canonical code of every symbol in use, as section 3.2.2 of RFC 1951 defines it |
| CanonicalHuffman.CodeFits | src/applets/archive/gzip.rs:678-711 | under Kraft's inequality every code fits its length |
| CanonicalHuffman.PrefixFree | src/applets/archive/gzip.rs:678-711 | no code is a prefix of another |
| CanonicalHuffman.LookupPrefix | src/applets/archive/gzip.rs:713-739 | looking up a growing codeword finds nothing before it is complete, and then its symbol |
| CanonicalHuffman.UniformCode | src/applets/archive/bzip2.rs:887-914 | with equal lengths the code of a symbol is its number |
| Inflate.InflateAll | src/applets/archive/gzip.rs:375-437 | on every stream of stored, fixed and dynamic blocks as RFC 1951 defines them, the decoder returns what the blocks say, or fails if a distance reaches before the start; empty input is an error |
| Inflate.DecodeHuffman | src/applets/archive/gzip.rs:713-739 | the codeword ahead gives its symbol and takes exactly its bits |
| Inflate.InflateTokens | src/applets/archive/gzip.rs:637-672 | any sequence of literals and matches in a compressed block is decoded up to the end-of-block code |
| Inflate.ReadFixed | src/applets/archive/gzip.rs:489-504 | the tests on 7, 8 and 9 bits decode exactly the canonical code of the fixed lengths |
| Inflate.FixedCode | src/applets/archive/gzip.rs:489-504 | the fixed code in closed form: the constants in the decoder are those of section 3.2.6 of RFC 1951 |
| Inflate.LengthsFollow | src/applets/archive/gzip.rs:473-479 | the ranges of the length codes follow one another from 3 on, with one extra bit more every four codes; code 28 is 258 alone |
| Inflate.DistancesFollow | src/applets/archive/gzip.rs:480-487 | the ranges of the distance codes follow one another from 1 to 32768, with one extra bit more every two codes |
| Inflate.OrderFolds | src/applets/archive/gzip.rs:564-567 | the order of the code length code: 16, 17, 18, 0, then outwards from 8 in turns |
| Inflate.ReadHeader | src/applets/archive/gzip.rs:560-619 | the header of a dynamic block gives the two trees it describes |
| Inflate.ReadLengths | src/applets/archive/gzip.rs:574-616 | run-length coded code lengths expand to what the codes 0 to 18 say |
| Inflate.ReadClLengths | src/applets/archive/gzip.rs:562-570 | the lengths of the code length code are taken in their permuted order |
| Inflate.InflateStored | src/applets/archive/gzip.rs:400-416 | a stored block is copied, from the next byte boundary |
| Inflate.CopyMatch | src/applets/archive/gzip.rs:662-667 | reading at start + i % distance is the overlapping copy byte by byte |
| Inflate.DeflateStored | src/applets/archive/gzip.rs:156-179 | writes the data in stored blocks of at most 65535 bytes, the last one marked, and nothing for no data |
| Inflate.StoredIsStream | src/applets/archive/gzip.rs:156-179 | what the stored encoder writes is a well-formed stream |
| Inflate.StoredSays | src/applets/archive/gzip.rs:156-179 | that stream says the data |
| Inflate.StoredRoundTrip | src/applets/archive/gzip.rs:156-437 | inflating what was stored gives the data back if and only if there is any |
| LsbFirst.GetBits | src/applets/archive/gzip.rs:379-393 | the next bits as a number, least significant first, or nothing if the data ends before |
| Lzw.LzwRoundTrip | src/applets/archive/compress.rs:259-473 | decompressing what was compressed gives the data back whenever the 16-bit code counter wraps with the last addition or not at all, so for all code widths below 16 and for all data up to 65280 bytes |
| Lzw.LzwCompress | src/applets/archive/compress.rs:259-376 | the output is a sequence of codes for phrases that join to the data, each code written in the width due to it, with fewer than eight bits of padding; as long as no entry has been dropped, every phrase is the longest known one |
| Lzw.LzwDecompress | src/applets/archive/compress.rs:379-473 | from codes in segments with clear codes between them, each segment starting over with nine bits, the decoder returns the joined phrases of all; without block mode likewise, with 256 as first code; it stops at a code it has no entry for |
| Lzw.EntryIsPhrase | src/applets/archive/compress.rs:435-450 | the decoder's entry for the next code is the phrase, also when the code is the one it has yet to add |
| Lzw.NextCode | src/applets/archive/compress.rs:401-424 | the decoder, one phrase behind, has the next code of the segment ahead in the width it was written in, and behind the last one a clear code or an end |
| Lzw.NextClear | src/applets/archive/compress.rs:426-433 | behind a segment the clear code is read in the width due, and the next segment starts over |
| Lzw.DecoderStep | src/applets/archive/compress.rs:452-468 | the decoder's dictionary holds all phrases but the latest, extended, and its width keeps up by the test `>=` |
| Lzw.Encoder.Feed | src/applets/archive/compress.rs:326-357 | every byte is taken: the phrases written and the current one join to the input so far |
| Lzw.Encoder.WriteAndAdd | src/applets/archive/compress.rs:332-356 | writing a phrase, adding an entry or failing to, and widening by the test `>` keeps the encoder's state |
| Lzw.InsertCode | src/applets/archive/compress.rs:295-304 | an insertion takes the first free slot of its probe sequence or, without one in reach, is dropped; no entry is ever replaced |
| Lzw.InsertedFound | src/applets/archive/compress.rs:283-304 | what has been inserted is found under its key |
| Lzw.OthersFound | src/applets/archive/compress.rs:283-304 | and every other key is found, or not, as before |
| Lzw.StillLongest | src/applets/archive/compress.rs:326-357 | a phrase that is the longest known one is so when its extension has been added |
| Lzw.FindCode | src/applets/archive/compress.rs:283-293 | the probe loop finds what linear probing finds within 1000 steps |
| Lzw.ProbeFinds | src/applets/archive/compress.rs:283-293 | what is found is an entry with this key |
| Lzw.WidthStep | src/applets/archive/compress.rs:344-353 | one more entry needs at most one more bit, so one step of the width is enough |
| LsbFirst.Packer.EmitCode | src/applets/archive/compress.rs:311-323 | appends the bits of a code behind all earlier ones, moving whole bytes out |
| LsbFirst.Packer.Flush | src/applets/archive/compress.rs:370-373 | writes the rest with fewer than eight bits of padding |
| ZstdFrame.ZstdRoundTrip | crates/zstd-nostd/src/compress.rs:18-85 | for any number of blocks, decompressing what was compressed gives the data if and only if what the match finder finds in every block is codable (no histogram clamps) and every block, executed from the recent offsets the blocks before it leave, gives its data; for one block the second part always holds, and otherwise compressing fails |
| ZstdFrame.EncodeFrame | crates/zstd-nostd/src/compress.rs:25-85 | the output is header, blocks and checksum for the consecutive blocks of the input, the last one marked; it fails exactly if what is found in some block is not codable |
| ZstdFrame.EncodeBlock | crates/zstd-nostd/src/compress.rs:88-110 | a block is compressed if that is shorter, raw otherwise, and fails exactly if what is found in it is not codable |
| ZstdDecode.DecodeFrame | crates/zstd-nostd/src/decompress.rs:206-295 | a frame behind any form of header, its blocks raw, run-length or compressed, appends what playing its blocks gives; it fails if a block cannot be played, if checksum or content size are not those of the content, or if the header asks for a dictionary or too large a window |
| ZstdDecode.DecodeBlocks | crates/zstd-nostd/src/decompress.rs:216-271 | blocks are decoded one after the other up to the last, trees, tables and recent offsets carried along |
| ZstdDecode.DecodeBlock | crates/zstd-nostd/src/decompress.rs:220-266 | a raw block appends its bytes, a run-length block its byte as often as it says, a compressed one what executing its sequences from the recent offsets there are gives |
| ZstdDecode.Decompress | crates/zstd-nostd/src/decompress.rs:23-61 | frames in a row, skippable ones among them, decompress to their contents one behind the other, or fail with the first that fails; no data gives none |
| ZstdFrame.PlayRight | crates/zstd-nostd/src/decompress.rs:216-271 | the whole comes out right if and only if every block does: a wrong block cannot be made good by a later one |
| ZstdFrame.SameLength | crates/zstd-nostd/src/decompress.rs:692-740 | a block decoded from other recent offsets may come out wrong, but never longer or shorter |
| ZstdFrame.FromStart | crates/zstd-nostd/src/compress.rs:139-258 | a block decoded from recent offsets 1, 4, 8 comes out right |
| ZstdFrame.EncodedFrame | crates/zstd-nostd/src/compress.rs:25-85 | what is written is a frame of the format whose content is the data if every block comes out right |
| ZstdFrame.EncodedBlocks | crates/zstd-nostd/src/compress.rs:60-110 | the blocks written can follow one another, and playing them is playing what was found in each chunk |
| ZstdExamples.ClampedInput | crates/zstd-nostd/src/compress.rs:378-405 | a concrete input of less than 9000 bytes that cannot be compressed: runs of 241 byte values whose lengths have a skewed histogram |
| ZstdExamples.StaleInput | crates/zstd-nostd/src/compress.rs:142 | a concrete input of two blocks that does not come back: the first leaves other recent offsets than the second is encoded from |
| ZstdExamples.RunsFound | crates/zstd-nostd/src/compress.rs:139-258 | for any list of at most 256 match length codes there is data in which the greedy search finds just them |
| ZstdDecode.ParseHeader | crates/zstd-nostd/src/decompress.rs:80-177 | single segment or window, dictionary id, and content size in each width are read back; dictionaries and windows above 2^30 are refused |
| ZstdBlock.EncodeCompressedBlock | crates/zstd-nostd/src/compress.rs:120-136 | the block is the literals and the sequences the greedy search finds in the data, in the number of bytes computed from them; it fails exactly if these are not codable |
| ZstdDecode.DecodeCompressedBlock | crates/zstd-nostd/src/decompress.rs:298-327 | a block gives what executing its sequences on its literals gives, from wherever the blocks before it have left trees, tables and recent offsets, and leaves them for later ones; it fails if that fails |
| ZstdBlock.EncodeSequencesSection | crates/zstd-nostd/src/compress.rs:301-362 | the section is count, modes, three table descriptions and a bit stream that fit together; there is one exactly if no histogram clamps |
| ZstdDecode.DecodeSequencesSection | crates/zstd-nostd/src/decompress.rs:504-641 | a section gives its sequences, for every combination of predefined, single-symbol, described and repeated tables, and fails exactly if a table does not exist; the tables are kept |
| ZstdDecode.DecodeTables | crates/zstd-nostd/src/decompress.rs:550-584 | the three tables are those of their descriptions, one behind the other, and every table is one the builder makes of a distribution that asks for no more cells than there are |
| ZstdDecode.PredefinedFit | crates/zstd-nostd/src/common.rs:122-139 | the predefined distributions fill their tables |
| ZstdDecode.PredefinedBySymbol | crates/zstd-nostd/src/common.rs:121-142 | the predefined distributions, symbol by symbol |
| ZstdBlock.EncodeLiteralsSection | crates/zstd-nostd/src/compress.rs:276-298 | raw literals behind a header of one, two or three bytes |
| ZstdDecode.DecodeLiteralsSection | crates/zstd-nostd/src/decompress.rs:337-501 | raw, run-length and Huffman-coded literals, with a tree of their own or that of the literals before, are read back from all header forms |
| ZstdDecode.DecodeHuffLiterals | crates/zstd-nostd/src/decompress.rs:415-500 | both sizes, weights and streams are found; the literals come back exactly if there is a tree, and a tree of their own is kept |
| ZstdDecode.HuffHeadSays | crates/zstd-nostd/src/decompress.rs:417-464 | type, format and both sizes can be read off every header of Huffman-coded literals |
| ZstdLiterals.Decompress1Stream | crates/zstd-nostd/src/huff.rs:295-327 | the codewords of any symbols, in a stream, decode to the symbols; lookups at the end of the stream have zeros behind them |
| ZstdLiterals.CodewordFound | crates/zstd-nostd/src/huff.rs:101-177 | any bits that start with the codeword of a symbol, padded with zeros, look up that symbol and its length |
| ZstdLiterals.Decompress4Streams | crates/zstd-nostd/src/huff.rs:330-381 | four streams with a quarter of the symbols each, rounded up, join to the symbols; a stream without symbols is not looked at |
| ZstdLiterals.ReadWeights | crates/zstd-nostd/src/huff.rs:182-216 | weights two to a byte, the first one in the high half, or coded, are read back in their number |
| ZstdLiterals.RunStates | crates/zstd-nostd/src/huff.rs:227-292 | two states in turn give the weights, and the last state of the other is taken when the bits do not suffice for a step |
| ZstdLiterals.BuildTree | crates/zstd-nostd/src/huff.rs:44-177 | the table is that of the one tree the weights complete to, if there is one |
| ZstdDecode.HeaderSays | crates/zstd-nostd/src/decompress.rs:345-374 | type, format and size can be read off every literals header |
| ZstdDecode.ReadCount | crates/zstd-nostd/src/decompress.rs:514-537 | the number of sequences is read back from all three forms |
| ZstdBlock.BuildHistograms | crates/zstd-nostd/src/compress.rs:317-341 | the histograms count the codes of the sequences, and the maxima are the largest codes |
| ZstdTables.BuildEncTable | crates/zstd-nostd/src/compress.rs:378-464 | the table chosen can code every symbol that occurs whatever state follows, and its header describes it; there is one exactly if only one symbol occurs or the normalized histogram is not clamped |
| ZstdTables.DecodeSeqTable | crates/zstd-nostd/src/decompress.rs:646-689 | per mode: the table of the default distribution, of one symbol, of the distribution described, or the previous one; the encoder's table is rebuilt from its header |
| ZstdTables.UnsafeTable | crates/zstd-nostd/src/decompress.rs:669-674 | a concrete description that is accepted although its table is not safe to decode with: state 0 leads to states from 65504 in a table of 32 |
| ZstdTables.TableLogFits | crates/zstd-nostd/src/compress.rs:467-490 | the table log chosen leaves more than twice as many cells as there are symbols |
| ZstdSequences.EncodeBitstream | crates/zstd-nostd/src/compress.rs:501-645 | states chosen from the last sequence backwards form a chain in which each state reaches the next, and the stream holds their first states, extra bits and steps |
| ZstdSequences.ChooseStates | crates/zstd-nostd/src/compress.rs:537-601 | going backwards, every step finds the state that leads to the one after it |
| ZstdSequences.FindSourceState | crates/zstd-nostd/src/compress.rs:671-698 | the state found has the symbol and reaches the target; the fallback is not used |
| ZstdSequences.FindStateForSymbol | crates/zstd-nostd/src/compress.rs:648-655 | a state of the symbol |
| ZstdSequences.DecodeBitstream | crates/zstd-nostd/src/decompress.rs:586-634 | replaying the stream forwards gives back the same sequences; with safe tables no data leads out of them |
| ZstdSequences.ReadSequences | crates/zstd-nostd/src/decompress.rs:599-634 | the same from given states, and the stream is consumed exactly |
| ZstdSequences.TableCodes | crates/zstd-nostd/src/fse.rs:39-108 | in every table that is filled exactly, each symbol with a cell can be coded before any state |
| ZstdSequences.TableSafe | crates/zstd-nostd/src/fse.rs:39-117 | of the distributions that ask for no more cells than there are, the builder accepts exactly those that fill the table and those without a positive probability; the table is safe to decode with if and only if it is full or symbol 0 has probability -1 |
| ZstdSequences.SafeNumbers | crates/zstd-nostd/src/fse.rs:83-102 | whatever the distribution, an accepted table is safe if and only if every cell's number lies between 1 and twice the number of cells |
| ZstdFse.Build | crates/zstd-nostd/src/fse.rs:39-108 | on every distribution: the builder returns the table if the walk ends at cell 0, wrapped numbers included, and refuses it otherwise; more -1 symbols than cells, or no symbol at all, are a crash |
| ZstdFse.CellsPerSymbol | crates/zstd-nostd/src/fse.rs:50-76 | every symbol gets exactly the cells its probability asks for, -1 counting as one |
| ZstdFse.LapFull | crates/zstd-nostd/src/fse.rs:50-76 | a distribution that fits leaves no cell without a symbol |
| ZstdFse.LapCell | crates/zstd-nostd/src/fse.rs:59-76 | cell by cell, which symbol the walk puts where |
| ZstdFse.LapUntouched | crates/zstd-nostd/src/fse.rs:59-76 | no cell is written before the walk reaches it, and cells of symbols less probable than one never are |
| ZstdFse.BackAtZero | crates/zstd-nostd/src/fse.rs:78-81 | the walk is at cell 0 if and only if the number of cells it has filled is a multiple of those it may use |
| ZstdFse.FittingEntry | crates/zstd-nostd/src/fse.rs:83-102 | for a distribution that fits nothing wraps: bits and baseline are those of the cell's number |
| ZstdFse.IndexOf | crates/zstd-nostd/src/fse.rs:59-70 | the odd step makes the walk a bijection of the table |
| ZstdFse.StepOdd | crates/zstd-nostd/src/fse.rs:60 | the step is odd for every table log the format uses |
| ZstdFse.AllowedAll | crates/zstd-nostd/src/fse.rs:59-76 | one round meets each cell below the reserved ones once |
| ZstdFse.SourceExists | crates/zstd-nostd/src/fse.rs:83-102 | every state can be reached from a cell of every symbol: the intervals [baseline, baseline + 2^bits) cover the table |
| ZstdFse.SourceUnique | crates/zstd-nostd/src/fse.rs:83-102 | and from one cell only: the intervals of a symbol do not overlap |
| ZstdFse.PadTable | crates/zstd-nostd/src/fse.rs:39-108 | symbols of probability zero behind the last do not change an accepted table |
| ZstdFse.SingleTable | crates/zstd-nostd/src/decompress.rs:658-668 | the table of a single symbol has one cell that takes no bits |
| ZstdNormalize.NormalizeCounts | crates/zstd-nostd/src/fse.rs:389-434 | the loop computes scaled counts, -1 for a symbol that rounds to nothing, and corrects the most frequent symbol, clamped at 1 |
| ZstdNormalize.FillsUnlessClamped | crates/zstd-nostd/src/fse.rs:389-434 | the distribution fills the table exactly if and only if the corrected count is at least 1; clamped, it overfills it |
| ZstdNormalize.CellsForAll | crates/zstd-nostd/src/fse.rs:402-423 | a symbol has cells exactly if it occurs |
| ZstdNormalize.Buildable | crates/zstd-nostd/src/fse.rs:389-434 | the distribution, clamped or not, is one on which the builder's walk ends within two rounds |
| ZstdNormalize.ClampHappens | crates/zstd-nostd/src/fse.rs:425-430 | a histogram of 13 frequent and 20 rare symbols for which the table is overfilled; ZstdExamples.ClampedInput is data that has it |
| ZstdDescription.WriteDescription | crates/zstd-nostd/src/fse.rs:438-542 | a distribution that asks for no more cells than there are is written as its description: log, short and long fields, zero runs, fewer than eight bits of padding |
| ZstdDescription.ReadDescription | crates/zstd-nostd/src/fse.rs:127-267 | a description that fills its table or gives all symbols is read back as the distribution padded with zeros, the same log, and its exact length in bytes; whatever is read never exceeds the table |
| ZstdDescription.FieldRoundTrip | crates/zstd-nostd/src/fse.rs:186-207 | a count is read back from any bits that start with its field, short or long |
| ZstdDescription.ReadRun | crates/zstd-nostd/src/fse.rs:236-259 | a run of zeros in groups of two bits is read back |
| ZstdDescription.NextField | crates/zstd-nostd/src/fse.rs:153-260 | the reader, at any point of a description, reads the next probability and stays in step |
| ZstdDescription.FieldAhead | crates/zstd-nostd/src/fse.rs:167-184 | the bits ahead are found in the window of three bytes |
| ZstdBits.BitWriter.Finish | crates/zstd-nostd/src/bitstream.rs:145-181 | the bytes hold the bits in reverse under a sentinel in the last byte |
| ZstdBits.BitWriter.WriteBits | crates/zstd-nostd/src/bitstream.rs:132-139 | appends the low bits of a value |
| ZstdBits.Open | crates/zstd-nostd/src/bitstream.rs:30-50 | a stream opens to exactly the bits that were written; no byte or a zero last byte is refused |
| ZstdBits.BitReader.ReadBits | crates/zstd-nostd/src/bitstream.rs:53-63 | returns the next bits in the order written, and fails exactly if there are fewer |
| ZstdBits.BitReader.PeekBits | crates/zstd-nostd/src/bitstream.rs:66-75 | shows the next bits without taking them, and fails exactly if there are fewer |
| ZstdBits.SetBit | crates/zstd-nostd/src/bitstream.rs:157-178 | setting one bit of a byte changes that bit only |
| ZstdCodes.LlCodeOf | crates/zstd-nostd/src/common.rs:157-170 | the range of the code holds the literal length, up to 131071 |
| ZstdCodes.MlCodeOf | crates/zstd-nostd/src/common.rs:173-188 | the range of the code holds the match length, from 3 to 131074 |
| ZstdCodes.OfCodeOf | crates/zstd-nostd/src/common.rs:191-196 | 2^code <= offset < 2^(code + 1) |
| ZstdCodes.LlContiguous | crates/zstd-nostd/src/common.rs:92-102 | the ranges of the literal length codes follow one another without gap or overlap |
| ZstdCodes.LlBits | crates/zstd-nostd/src/common.rs:92-102 | sixteen codes stand for one length each, then the extra bits grow |
| ZstdCodes.MlContiguous | crates/zstd-nostd/src/common.rs:104-116 | the ranges of the match length codes follow one another without gap or overlap |
| ZstdCodes.LlCode | crates/zstd-nostd/src/common.rs:157-170 | the downward search finds that code |
| ZstdCodes.MlCode | crates/zstd-nostd/src/common.rs:173-188 | the downward search finds that code |
| ZstdLz.FindMatches | crates/zstd-nostd/src/compress.rs:139-258 | the loop computes the greedy search as a function of the data: the best match under the recent offsets, a longer one from the hash table, else a literal |
| ZstdLz.MatchesRepresent | crates/zstd-nostd/src/compress.rs:139-258 | what the search finds, executed after any output from offsets 1, 4, 8, appends the data; no sequence has offset 0, and all are in range |
| ZstdLz.RoundRight | crates/zstd-nostd/src/compress.rs:152-251 | every round of the search keeps that the data so far is rebuilt and that the latest offset does not match again right after a match |
| ZstdLz.Grows | crates/zstd-nostd/src/compress.rs:197-237 | after every sequence the encoder's recent offsets are those the decoder has, and everything before the match is rebuilt |
| ZstdLz.RepeatFound | crates/zstd-nostd/src/compress.rs:160-179 | a match under a recent offset is a match, under a code that means that offset; right after a match the latest offset cannot match again |
| ZstdLz.HashFound | crates/zstd-nostd/src/compress.rs:181-195 | whatever the hash table holds, a match taken from it is one |
| ZstdLz.CountMatch | crates/zstd-nostd/src/compress.rs:261-268 | the common length is right and cannot be extended |
| ZstdLz.SameHistory | crates/zstd-nostd/src/compress.rs:206-237 | both sides update the recent offsets alike, and the latest is the distance of the match |
| ZstdLz.ExecuteSequences | crates/zstd-nostd/src/decompress.rs:692-740 | the loop computes the execution of the sequences, failing exactly where literals or distance run out or a code is invalid |
| ZstdLz.CopyRebuilds | crates/zstd-nostd/src/decompress.rs:724-728 | copying a match rebuilds the data, overlapping or not |
| ZstdLz.ExecuteLength | crates/zstd-nostd/src/decompress.rs:692-740 | the length of what sequences produce does not depend on the recent offsets they start from, and output is only added to |
| ZstdHuffman.Build | crates/zstd-nostd/src/huff.rs:44-177 | the table is built exactly if some last weight completes the weights within 12 bits, and then every cell holds the symbol it belongs to |
| ZstdHuffman.LookupByPrefix | crates/zstd-nostd/src/huff.rs:219-223 | a lookup depends only on the code bits of the symbol found: the code is complete and prefix-free |
| ZstdHuffman.Owner | crates/zstd-nostd/src/huff.rs:132-174 | every cell belongs to a symbol |
| ZstdHuffman.BlocksDisjoint | crates/zstd-nostd/src/huff.rs:132-174 | no cell belongs to two |
| ZstdHuffman.BlockIsPrefix | crates/zstd-nostd/src/huff.rs:132-174 | the cells of a symbol are those that share their leading bits: blocks are aligned to their own size |
| ZstdHuffman.Complement | crates/zstd-nostd/src/huff.rs:49-99 | the implied weight and the number of bits, or nothing if none complete the weights |
| ZstdHuffman.CompletedOnce | crates/zstd-nostd/src/huff.rs:49-99 | there is one way at most to complete weights |
| Resolver.TopologicalSort | crates/abp/src/resolver.rs:188-237 | succeeds if and only if the dependencies within the set have no cycle; then every package is listed once, after all its dependencies in the set, and nothing else |
| Resolver.ResolveWithLocal | crates/abp/src/resolver.rs:25-47 | ends on every finite database; fails if and only if the packages lead to an unknown package, an unresolved dependency or a cycle; otherwise lists them and what they need, each once, after everything it needs that is not installed, and nothing more |
| Resolver.FindProvider | crates/abp/src/resolver.rs:135-148 | the first installed package that provides the name, or none does |
| Resolver.InSetTrouble | crates/abp/src/resolver.rs:188-237 | restricted to a set of packages, the only trouble is a cycle |
| Resolver.OrderedInstallable | crates/abp/src/resolver.rs:73-104 | a dependency order is one in which every dependency is satisfied by an installed version or has its package or provider listed earlier |
| DependencyOrder.Search.Resolve | crates/abp/src/resolver.rs:49-111 | resolving one package puts it behind all it needs and keeps the order; it fails only with a witness: a broken package or a cycle that can be reached |
| DependencyOrder.Search.ResolveAll | crates/abp/src/resolver.rs:73-104 | the same for all dependencies of a package |
| DependencyOrder.ResolveRoots | crates/abp/src/resolver.rs:42-44 | success if and only if no trouble can be reached, each package once, and only what is needed |
| DependencyOrder.OrderedMeansNoTrouble | crates/abp/src/resolver.rs:49-111 | an order that contains the roots shows that no broken package and no cycle can be reached |
| DependencyOrder.ClosesCycle | crates/abp/src/resolver.rs:60-62 | meeting a package again on the stack is a cycle that can be reached |
| PkgIndex.IndexRoundTrip | crates/abp/src/pkgindex.rs:750-881 | an index built from packages within the field limits opens; every package is found under its number with all fields; a name is found if and only if some package has it |
| PkgIndex.Build | crates/abp/src/pkgindex.rs:750-819 | the file is header, name index in name order, entries in list order, and strings that every reference resolves in |
| PkgIndex.StringTable.Intern | crates/abp/src/pkgindex.rs:849-862 | a new string is appended once, and all references stay good |
| PkgIndex.SortByName | crates/abp/src/pkgindex.rs:774-776 | the entry numbers, each once, in name order |
| PkgIndex.FromBytes | crates/abp/src/pkgindex.rs:303-367 | what opens is safe to search: sections and entry numbers in range, names in order; a built index opens |
| PkgIndex.Find | crates/abp/src/pkgindex.rs:386-417 | binary search finds an entry with the name if and only if there is one |
| PkgIndex.PackageRead | crates/abp/src/pkgindex.rs:420-489 | reading entry i of a built index gives package i |
| Sha256.HashParts | crates/abp/src/crypto.rs:52-109 | however a message is cut into updates, the result is the 32 bytes of the compression function folded over the padded message |
| Sha256.Hasher.Update | crates/abp/src/crypto.rs:52-80 | the state depends on the bytes taken only: whole blocks are folded, the rest is buffered |
| Sha256.Hasher.Finalize | crates/abp/src/crypto.rs:83-109 | adds the padding of section 5.1.1 of FIPS 180-4, for every residual buffer length, and returns the eight words as bytes |
| Sha256.WordBytesOnce | crates/abp/src/crypto.rs:101-108 | different states give different bytes |
| Sha256.PaddedOnce | crates/abp/src/crypto.rs:83-100 | different messages are padded differently, so the fold is over different blocks |
| LittleEndian.LeByte | crates/abp/src/pkgindex.rs:750-819 | the lowest byte comes first |

## Left out

- Lzw.LzwDecompress: codes that are not those of segments as Lzw.Encodes describes them are decoded by the same steps, but nothing is claimed about the output.
- Lzw.LzwRoundTrip: one direction only, because what a wrapped counter does to the data depends on whether the damaged entries are used again; the condition is that the counter does not wrap before the last addition. An entry read from a file header below 9 or above 16 bits is not modelled.
- RegexParser.Parser.ParseAlt: that a tree parsed is one the pattern spells, not that the grammar gives a pattern no other tree.
- Bzip2Block.CompressBlock: data of more than 900000 bytes is excluded; the stream writer cuts blocks of at most that size.
- Bzip2Format.DecompressBlock: its contract is about blocks as Bzip2Format.Layout describes them, with tables that satisfy Kraft's inequality. On other data the original can loop or panic.
- Bzip2Bwt.BwtTransform: the library sort is modelled as insertion into a sorted list; any order of equal rotations gives the same result.
- ZstdFse.Build: table logs 1 to 4 and above 15, for which the step need not be odd, are excluded; the format has none.
- ZstdFrame.ZstdRoundTrip: the limit on output size of decompress_bounded is not modelled.
- ZstdSequences.ReadSequence: symbols past the tables of lengths, and offset codes of 32 and more, come back as errors; the original indexes out of bounds there, or shifts by a wrapped amount.
- ZstdDecode.Decompress: its contract is about frames as ZstdFormat describes them, among them those that cannot be decoded because a table, a tree or a match is missing. On data that is no frame the method follows the code, but only its bounds are stated.
- ZstdLiterals.RunStates: it gives up after 255 weights, the most there can be of 256 symbols. The original goes on, without end if a state takes no bits and leads to itself.
- Inflate.InflateAll: the claim is about well-formed streams; on others the method follows the code but only its bounds are stated. Code lengths come from the header, so they are at most 15.
- PkgIndex.Build: packages beyond the 16-bit and 32-bit field limits, which the original truncates silently, are excluded by its precondition.
- Sha256.Hasher.Finalize: messages of 2^61 bytes and more, whose length the original cannot hold, are excluded.
- Resolver.ResolveWithLocal: one search serves both uses of the resolver, which the original writes out twice.
- Streams around the blocks: the bzip2 stream header, block CRCs and combined CRC; the gzip header and trailer; the compress(1) magic; file names and input and output throughout.
- zstd Huffman encoding (huff.rs) and FseEncTable: not used by the compressor.
- The compression function of SHA-256, xxHash64, CRC-32 and Ed25519.
- Database directories, installation, repositories, configuration, and all other applets.
