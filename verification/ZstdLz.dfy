/** The match finder of zstd and the execution of sequences (section 3.1.1.4 of RFC 8878). */
module ZstdLz {
  import opened Bytes
  import opened Lz77

  const MIN_MATCH: nat := 3

  /** `offset` is an offset code: 1 to 3 name a recent offset, d + 3 the distance d. */
  datatype Sequence = Sequence(litLen: nat, matchLen: nat, offset: nat)

  /** The three latest match distances. */
  datatype History = History(first: nat, second: nat, third: nat)

  const START: History := History(1, 4, 8)

  // ----- the meaning of a sequence list -----

  /** The distance an offset code stands for, and the history after it. */
  function Resolve(offset: nat, litLen: nat, h: History): Option<(nat, History)> {
    if offset > 3 then Some((offset - 3, History(offset - 3, h.first, h.second)))
    else if litLen > 0 then
      match offset
      case 1 => Some((h.first, h))
      case 2 => Some((h.second, History(h.second, h.first, h.third)))
      case 3 => Some((h.third, History(h.third, h.first, h.second)))
      case _ => None
    else
      match offset
      case 1 => Some((h.second, History(h.second, h.first, h.third)))
      case 2 => Some((h.third, History(h.third, h.first, h.second)))
      case 3 => if h.first == 1 then None else Some((Before(h.first), History(Before(h.first), h.first, h.second)))
      case _ => None
  }

  /** d - 1 in 32 bits. */
  function Before(d: nat): nat {
    if d == 0 then 0xFFFF_FFFF else d - 1
  }

  datatype Decoded = Decoded(output: seq<Byte>, litPos: nat, history: History)

  function ExecuteOne(s: Sequence, literals: seq<Byte>, st: Decoded): Option<Decoded> {
    if st.litPos + s.litLen > |literals| then None
    else
      var output := st.output + literals[st.litPos..st.litPos + s.litLen];
      match Resolve(s.offset, s.litLen, st.history)
      case None => None
      case Some((d, h)) =>
        if d == 0 || d > |output| then None
        else Some(Decoded(CopyBack(output, d, s.matchLen), st.litPos + s.litLen, h))
  }

  function ExecuteAll(seqs: seq<Sequence>, literals: seq<Byte>, st: Decoded): Option<Decoded> {
    if seqs == [] then Some(st)
    else
      match ExecuteAll(seqs[..|seqs| - 1], literals, st)
      case None => None
      case Some(mid) => ExecuteOne(seqs[|seqs| - 1], literals, mid)
  }

  /** The whole block: all sequences, then the literals that are left. */
  function Execute(seqs: seq<Sequence>, literals: seq<Byte>, output: seq<Byte>, h: History): Option<(seq<Byte>,
      History)> {
    match ExecuteAll(seqs, literals, Decoded(output, 0, h))
    case None => None
    case Some(st) =>
      Some((if st.litPos < |literals| then st.output + literals[st.litPos..] else st.output, st.history))
  }

  /** The length of the output does not depend on the history, and the output is only added to. */
  lemma ExecuteLength(seqs: seq<Sequence>, literals: seq<Byte>, output: seq<Byte>, h: History, g: History)
    requires Execute(seqs, literals, output, h).Some? && Execute(seqs, literals, output, g).Some?
    ensures |Execute(seqs, literals, output, h).value.0| == |Execute(seqs, literals, output, g).value.0|
    ensures output <= Execute(seqs, literals, output, h).value.0
  {
    AllLength(seqs, literals, Decoded(output, 0, h), Decoded(output, 0, g));
  }

  lemma {:induction false} AllLength(seqs: seq<Sequence>, literals: seq<Byte>, a: Decoded, b: Decoded)
    requires |a.output| == |b.output| && a.litPos == b.litPos
    requires ExecuteAll(seqs, literals, a).Some? && ExecuteAll(seqs, literals, b).Some?
    ensures var x, y := ExecuteAll(seqs, literals, a).value, ExecuteAll(seqs, literals, b).value;
      |x.output| == |y.output| && x.litPos == y.litPos && a.output <= x.output
    decreases |seqs|
  {
    hide Resolve;
    if seqs != [] {
      AllLength(seqs[..|seqs| - 1], literals, a, b);
    }
  }

  // ----- the decoder's loop -----

  method ExecuteSequences(output0: seq<Byte>, literals: seq<Byte>, seqs: seq<Sequence>, h0: History)
      returns (r: Option<(seq<Byte>, History)>)
    ensures r == Execute(seqs, literals, output0, h0)
  {
    hide ExecuteAll, Resolve;
    var output, litPos: nat, h := output0, 0, h0;
    ghost var start := Decoded(output0, 0, h0);
    NothingYet(literals, start);
    assert seqs[..0] == [];
    var i: nat := 0;
    while i < |seqs|
      invariant i <= |seqs| && ExecuteAll(seqs[..i], literals, start) == Some(Decoded(output, litPos, h))
    {
      var s := seqs[i];
      ghost var st := Decoded(output, litPos, h);
      OneMore(seqs, i, literals, start);
      var litEnd := litPos + s.litLen;
      if litEnd > |literals| {
        StaysNone(seqs, i + 1, literals, start);
        return None;
      }
      output := output + literals[litPos..litEnd];
      litPos := litEnd;
      var resolved := Resolve(s.offset, s.litLen, h);
      if resolved.None? || resolved.value.0 == 0 || resolved.value.0 > |output| {
        StaysNone(seqs, i + 1, literals, start);
        return None;
      }
      h := resolved.value.1;
      output := CopyMatch(output, resolved.value.0, s.matchLen);
      i := i + 1;
    }
    assert seqs[..i] == seqs;
    if litPos < |literals| {
      output := output + literals[litPos..];
    }
    return Some((output, h));
  }

  method CopyMatch(output0: seq<Byte>, d: nat, n: nat) returns (output: seq<Byte>)
    requires 1 <= d <= |output0|
    ensures output == CopyBack(output0, d, n)
  {
    output := output0;
    var matchStart := |output| - d;
    var i: nat := 0;
    while i < n
      invariant i <= n && output == CopyBack(output0, d, i)
    {
      output := output + [output[matchStart + i]];
      i := i + 1;
    }
  }

  lemma NothingYet(literals: seq<Byte>, st: Decoded)
    ensures ExecuteAll([], literals, st) == Some(st)
  {
  }

  lemma OneMore(seqs: seq<Sequence>, i: nat, literals: seq<Byte>, st: Decoded)
    requires i < |seqs| && ExecuteAll(seqs[..i], literals, st).Some?
    ensures ExecuteAll(seqs[..i + 1], literals, st)
         == ExecuteOne(seqs[i], literals, ExecuteAll(seqs[..i], literals, st).value)
  {
    assert seqs[..i + 1][..i] == seqs[..i];
  }

  lemma {:induction false} StaysNone(seqs: seq<Sequence>, i: nat, literals: seq<Byte>, st: Decoded)
    requires i <= |seqs| && ExecuteAll(seqs[..i], literals, st).None?
    ensures ExecuteAll(seqs, literals, st).None?
    decreases |seqs|
  {
    if i == |seqs| {
      assert seqs[..i] == seqs;
    } else {
      assert seqs[..|seqs| - 1][..i] == seqs[..i];
      StaysNone(seqs[..|seqs| - 1], i, literals, st);
    }
  }

  // ----- matches -----

  /** The `n` bytes at `pos` also stand `d` earlier. */
  ghost predicate Repeats(data: seq<Byte>, pos: nat, d: nat, n: nat) {
    1 <= d <= pos && pos + n <= |data| && forall q :: pos <= q < pos + n ==> data[q] == data[q - d]
  }

  /** Copying a match rebuilds the data, even when the match overlaps itself. */
  lemma {:induction false} CopyRebuilds(prefix: seq<Byte>, data: seq<Byte>, pos: nat, d: nat, n: nat)
    requires Repeats(data, pos, d, n)
    ensures CopyBack(prefix + data[..pos], d, n) == prefix + data[..pos + n]
    decreases n
  {
    if n > 0 {
      CopyRebuilds(prefix, data, pos, d, n - 1);
      var r := prefix + data[..pos + n - 1];
      assert r[|r| - d] == data[pos + n - 1 - d];
      assert prefix + data[..pos + n] == r + [data[pos + n - 1]];
    }
  }

  /** How far the bytes from both positions agree. */
  function Common(data: seq<Byte>, pos1: nat, pos2: nat): (n: nat)
    requires pos1 < pos2 <= |data|
    ensures pos2 + n <= |data| && Repeats(data, pos2, pos2 - pos1, n)
    ensures pos2 + n < |data| ==> data[pos1 + n] != data[pos2 + n]
    decreases |data| - pos2
  {
    if pos2 < |data| && data[pos1] == data[pos2] then 1 + Common(data, pos1 + 1, pos2 + 1) else 0
  }

  /** Agreement up to a place where the bytes differ, or the end. */
  lemma {:induction false} CommonIs(data: seq<Byte>, pos1: nat, pos2: nat, n: nat)
    requires pos1 < pos2 && Repeats(data, pos2, pos2 - pos1, n)
    requires pos2 + n < |data| ==> data[pos1 + n] != data[pos2 + n]
    ensures Common(data, pos1, pos2) == n
    decreases n
  {
    if n > 0 {
      assert data[pos2] == data[pos2 - (pos2 - pos1)];
      CommonIs(data, pos1 + 1, pos2 + 1, n - 1);
    }
  }

  method CountMatch(data: seq<Byte>, pos1: nat, pos2: nat) returns (len: nat)
    requires pos1 < pos2 <= |data|
    ensures len == Common(data, pos1, pos2)
  {
    var maxLen := |data| - pos2;
    len := 0;
    while len < maxLen && data[pos1 + len] == data[pos2 + len]
      invariant len <= maxLen && Repeats(data, pos2, pos2 - pos1, len)
    {
      len := len + 1;
    }
    CommonIs(data, pos1, pos2, len);
  }

  function ReadLe32(data: seq<Byte>, pos: nat): (v: nat) {
    if pos + 4 > |data| then 0
    else
      data[pos] as int + 0x100 * data[pos + 1] as int
      + 0x1_0000 * data[pos + 2] as int + 0x100_0000 * data[pos + 3] as int
  }

  function Hash4(data: seq<Byte>, pos: nat): (h: nat)
    ensures h < 65536
  {
    ReadLe32(data, pos) * 0x9E37_79B1 % 0x1_0000_0000 / 65536
  }

  /** A match of length `len` at `pos` under offset code `code`; `len` 0 stands for no match. */
  ghost predicate Found(data: seq<Byte>, pos: nat, litLen: nat, h: History, len: nat, code: nat) {
    if len == 0 then code == 0
    else
      && MIN_MATCH <= len && 1 <= code <= |data| + 3 && (litLen == 0 ==> code != 3)
      && var r := Resolve(code, litLen, h);
      r.Some? && Repeats(data, pos, r.value.0, len) && (pos + len < |data| ==>
          data[pos + len] != data[pos + len - r.value.0])
  }

  function Offset(h: History, i: nat): nat
    requires i < 3
  {
    if i == 0 then h.first else if i == 1 then h.second else h.third
  }

  ghost predicate HistoryOk(h: History) {
    h.first > 0 && h.second > 0 && h.third > 0
  }

  /** Right after a match the latest offset does not match again: the match was maximal. */
  ghost predicate Broken(data: seq<Byte>, pos: nat, litStart: nat, h: History) {
    pos == litStart && h.first <= pos < |data| ==> data[pos - h.first] != data[pos]
  }

  // ----- the greedy search, as a function of the data -----

  datatype Match = Match(len: nat, code: nat)

  /** The best match under the first `n` recent offsets. Right after a match the codes of the later
      ones shift, and the latest has none. */
  function RepeatBest(data: seq<Byte>, pos: nat, litLen: nat, h: History, n: nat): (m: Match)
    requires pos <= |data| && n <= 3
    ensures pos + m.len <= |data|
  {
    if n == 0 then Match(0, 0)
    else
      var best, off := RepeatBest(data, pos, litLen, h, n - 1), Offset(h, n - 1);
      if 0 < off <= pos then
        var len := Common(data, pos - off, pos);
        if len >= MIN_MATCH && len > best.len then
          Match(len, if litLen > 0 then n else if n == 1 then best.code else n - 1)
        else best
      else best
  }

  /** The hash table with the position entered, if four bytes are left. */
  function Enter(data: seq<Byte>, table: seq<nat>, pos: nat): (t: seq<nat>)
    requires |table| == 65536
    ensures |t| == 65536
  {
    if pos + 4 <= |data| then table[Hash4(data, pos) := pos] else table
  }

  function EnterAll(data: seq<Byte>, table: seq<nat>, from: nat, to: nat): (t: seq<nat>)
    requires |table| == 65536
    ensures |t| == 65536
    decreases if from < to then to - from else 0
  {
    if from < to && from + 4 <= |data| then EnterAll(data, Enter(data, table, from), from + 1, to) else table
  }

  /** A longer match at the position the hash table remembers, or what there was. */
  function HashBest(data: seq<Byte>, pos: nat, table: seq<nat>, best: Match): (m: Match)
    requires pos <= |data| && |table| == 65536 && pos + best.len <= |data|
    ensures pos + m.len <= |data|
  {
    if pos + 4 > |data| then best
    else
      var candidate := table[Hash4(data, pos)];
      if candidate < pos && pos - candidate <= 0x10_0000 && candidate + 3 < |data| then
        var len := Common(data, candidate, pos);
        if len >= MIN_MATCH && len > best.len then Match(len, pos - candidate + 3) else best
      else best
  }

  /** Where the search stands. */
  datatype Finder = Finder(pos: nat, litStart: nat, h: History, table: seq<nat>, seqs: seq<Sequence>,
      literals: seq<Byte>)

  ghost predicate FinderOk(data: seq<Byte>, st: Finder) {
    st.litStart <= st.pos <= |data| && |st.table| == 65536
  }

  ghost function BestAt(data: seq<Byte>, st: Finder): (m: Match)
    requires FinderOk(data, st)
    ensures st.pos + m.len <= |data|
  {
    HashBest(data, st.pos, st.table, RepeatBest(data, st.pos, st.pos - st.litStart, st.h, 3))
  }

  /** One round: a match is taken, or the next byte is left as a literal. */
  ghost function Round(data: seq<Byte>, st: Finder): (next: Finder)
    requires FinderOk(data, st) && st.pos < |data|
    ensures FinderOk(data, next) && next.pos > st.pos
  {
    var m, litLen, table := BestAt(data, st), st.pos - st.litStart, Enter(data, st.table, st.pos);
    if m.len >= MIN_MATCH then
      Finder(st.pos + m.len, st.pos + m.len, Shifted(m.code, litLen, st.h),
             EnterAll(data, table, st.pos + 1, st.pos + m.len),
             st.seqs + [Sequence(litLen, m.len, m.code)], st.literals + data[st.litStart..st.pos])
    else
      st.(pos := st.pos + 1, table := table)
  }

  ghost function Greedy(data: seq<Byte>, st: Finder): (last: Finder)
    requires FinderOk(data, st)
    ensures FinderOk(data, last)
    decreases |data| - st.pos
  {
    if st.pos + MIN_MATCH <= |data| then Greedy(data, Round(data, st)) else st
  }

  function AtStart(): Finder {
    Finder(0, 0, START, Rep<nat>(0, 65536), [], [])
  }

  /** The sequences and the literals found in the data. */
  ghost function Matches(data: seq<Byte>): (seq<Sequence>, seq<Byte>) {
    if |data| < MIN_MATCH then ([], data)
    else
      var st := Greedy(data, AtStart());
      (st.seqs, st.literals + data[st.litStart..])
  }

  // ----- the search -----

  /** The longest match under a recent offset. */
  method RepeatMatch(data: seq<Byte>, pos: nat, litLen: nat, h: History) returns (bestLen: nat, bestOffset: nat)
    requires litLen <= pos < |data|
    ensures Match(bestLen, bestOffset) == RepeatBest(data, pos, litLen, h, 3)
  {
    hide Common, Repeats, Offset;
    bestLen, bestOffset := 0, 0;
    var rep: nat := 0;
    while rep < 3
      invariant rep <= 3 && Match(bestLen, bestOffset) == RepeatBest(data, pos, litLen, h, rep)
    {
      var off := Offset(h, rep);
      if off <= pos && off > 0 {
        var len := CountMatch(data, pos - off, pos);
        if len >= MIN_MATCH && len > bestLen {
          bestLen := len;
          if litLen > 0 {
            bestOffset := rep + 1;
          } else {
            match rep {
              case 1 => bestOffset := 1;
              case 2 => bestOffset := 2;
              case _ =>
            }
          }
        }
      }
      rep := rep + 1;
    }
  }

  /** A longer match at the position the hash table remembers, if there is one. */
  method HashMatch(data: seq<Byte>, pos: nat, hashTable: array<nat>, repLen: nat, repOffset: nat)
      returns (bestLen: nat, bestOffset: nat)
    requires hashTable.Length == 65536 && pos + repLen <= |data|
    modifies hashTable
    ensures Match(bestLen, bestOffset) == HashBest(data, pos, old(hashTable[..]), Match(repLen, repOffset))
    ensures hashTable[..] == Enter(data, old(hashTable[..]), pos)
  {
    bestLen, bestOffset := repLen, repOffset;
    if pos + 4 <= |data| {
      var k := Hash4(data, pos);
      var candidate := hashTable[k];
      hashTable[k] := pos;
      if candidate < pos && pos - candidate <= 0x10_0000 && candidate + 3 < |data| {
        var len := CountMatch(data, candidate, pos);
        if len >= MIN_MATCH && len > bestLen {
          bestLen := len;
          bestOffset := pos - candidate + 3;
        }
      }
    }
  }

  /** The match finder's own account of the recent offsets. */
  function Shifted(code: nat, litLen: nat, h: History): History {
    if code > 3 then History(code - 3, h.first, h.second)
    else if litLen > 0 then
      match code
      case 2 => History(h.second, h.first, h.third)
      case 3 => History(h.third, h.first, h.second)
      case _ => h
    else
      match code
      case 1 => History(h.second, h.first, h.third)
      case 2 => History(h.third, h.first, h.second)
      case _ => h
  }

  /** It agrees with the decoder's, whose latest offset is then the distance of the match. */
  lemma SameHistory(data: seq<Byte>, pos: nat, litLen: nat, h: History, len: nat, code: nat)
    requires Found(data, pos, litLen, h, len, code) && len > 0 && HistoryOk(h)
    ensures var r := Resolve(code, litLen, h);
      r.Some? && r.value.1 == Shifted(code, litLen, h) && r.value.0 == Shifted(code, litLen, h).first
    ensures HistoryOk(Shifted(code, litLen, h))
  {
  }

  ghost predicate InRange(s: Sequence, n: nat) {
    s.litLen + s.matchLen <= n && MIN_MATCH <= s.matchLen && 1 <= s.offset <= n + 3
  }

  /** Executing the sequences found so far rebuilds the data up to `litStart`. */
  ghost predicate Rebuilt(data: seq<Byte>, seqs: seq<Sequence>, literals: seq<Byte>, litStart: nat, h: History) {
    && litStart <= |data| && HistoryOk(h)
    && |literals| + 3 * |seqs| <= litStart
    && (forall k :: 0 <= k < |seqs| ==> InRange(seqs[k], |data|))
    && forall prefix: seq<Byte> ::
         ExecuteAll(seqs, literals, Decoded(prefix, 0, START))
             == Some(Decoded(prefix + data[..litStart], |literals|, h))
  }

  lemma {:induction false} MoreLiterals(seqs: seq<Sequence>, literals: seq<Byte>, more: seq<Byte>, st: Decoded)
    requires ExecuteAll(seqs, literals, st).Some?
    ensures ExecuteAll(seqs, literals + more, st) == ExecuteAll(seqs, literals, st)
    decreases |seqs|
  {
    if seqs != [] {
      MoreLiterals(seqs[..|seqs| - 1], literals, more, st);
      var mid := ExecuteAll(seqs[..|seqs| - 1], literals, st).value;
      var s := seqs[|seqs| - 1];
      assert literals[mid.litPos..mid.litPos + s.litLen] == (literals + more)[mid.litPos..mid.litPos + s.litLen];
    }
  }

  lemma FoundRange(data: seq<Byte>, pos: nat, litLen: nat, h: History, len: nat, code: nat)
    requires Found(data, pos, litLen, h, len, code) && len > 0
    ensures pos + len <= |data| && len >= MIN_MATCH && 1 <= code <= |data| + 3
  {
  }

  /** One more sequence. */
  lemma Grows(data: seq<Byte>, seqs: seq<Sequence>, literals: seq<Byte>, litStart: nat, h: History, pos: nat,
              len: nat, code: nat)
    requires Rebuilt(data, seqs, literals, litStart, h) && litStart <= pos && len > 0
    requires Found(data, pos, pos - litStart, h, len, code)
    ensures Rebuilt(data, seqs + [Sequence(pos - litStart, len, code)], literals + data[litStart..pos], pos + len,
                    Shifted(code, pos - litStart, h))
  {
    hide Found, Shifted, Resolve, ExecuteOne, Repeats;
    var litLen, h' := pos - litStart, Shifted(code, pos - litStart, h);
    FoundRange(data, pos, litLen, h, len, code);
    var s := Sequence(litLen, len, code);
    var seqs', literals' := seqs + [s], literals + data[litStart..pos];
    SameHistory(data, pos, litLen, h, len, code);
    forall prefix: seq<Byte>
      ensures ExecuteAll(seqs', literals', Decoded(prefix, 0, START))
           == Some(Decoded(prefix + data[..pos + len], |literals'|, h'))
    {
      var start := Decoded(prefix, 0, START);
      MoreLiterals(seqs, literals, data[litStart..pos], start);
      assert seqs'[..|seqs|] == seqs;
      StepRebuilds(data, prefix, literals, litStart, h, pos, len, code);
    }
  }

  lemma StepRebuilds(data: seq<Byte>, prefix: seq<Byte>, literals: seq<Byte>, litStart: nat, h: History, pos: nat,
                     len: nat, code: nat)
    requires litStart <= pos && len > 0 && HistoryOk(h) && Found(data, pos, pos - litStart, h, len, code)
    ensures ExecuteOne(Sequence(pos - litStart, len, code), literals + data[litStart..pos],
                       Decoded(prefix + data[..litStart], |literals|, h))
         == Some(Decoded(prefix + data[..pos + len], |literals| + (pos - litStart), Shifted(code, pos - litStart, h)))
  {
    hide Resolve, Shifted;
    var litLen, literals' := pos - litStart, literals + data[litStart..pos];
    SameHistory(data, pos, litLen, h, len, code);
    assert literals'[|literals|..|literals| + litLen] == data[litStart..pos];
    assert prefix + data[..litStart] + data[litStart..pos] == prefix + data[..pos];
    CopyRebuilds(prefix, data, pos, Shifted(code, litLen, h).first, len);
  }

  lemma NothingFound(data: seq<Byte>)
    ensures Rebuilt(data, [], [], 0, START)
  {
    forall prefix: seq<Byte>
      ensures ExecuteAll([], [], Decoded(prefix, 0, START)) == Some(Decoded(prefix + data[..0], 0, START))
    {
      assert prefix + data[..0] == prefix;
    }
  }

  /** With the literals after the last match, all of the data is rebuilt. */
  lemma RebuildsAll(data: seq<Byte>, seqs: seq<Sequence>, literals: seq<Byte>, litStart: nat, h: History)
    requires Rebuilt(data, seqs, literals, litStart, h)
    ensures Yields(data, seqs, literals + data[litStart..], h)
  {
    var all := literals + data[litStart..];
    forall prefix: seq<Byte> ensures Execute(seqs, all, prefix, START) == Some((prefix + data, h)) {
      MoreLiterals(seqs, literals, data[litStart..], Decoded(prefix, 0, START));
      assert all[|literals|..] == data[litStart..];
      assert prefix + data[..litStart] + data[litStart..] == prefix + data;
      if litStart == |data| {
        assert prefix + data[..litStart] == prefix + data;
      }
    }
  }

  ghost predicate Represents(data: seq<Byte>, seqs: seq<Sequence>, literals: seq<Byte>) {
    && |literals| + 3 * |seqs| <= |data|
    && (forall k :: 0 <= k < |seqs| ==> InRange(seqs[k], |data|))
    && exists h :: Yields(data, seqs, literals, h)
  }

  /** Executed after any output, the sequences append the data and leave the history `h`. */
  ghost predicate Yields(data: seq<Byte>, seqs: seq<Sequence>, literals: seq<Byte>, h: History) {
    forall prefix: seq<Byte> :: Execute(seqs, literals, prefix, START) == Some((prefix + data, h))
  }

  /** The greedy match finder. */
  method FindMatches(data: seq<Byte>) returns (seqs: seq<Sequence>, literals: seq<Byte>)
    ensures (seqs, literals) == Matches(data)
  {
    hide Enter, EnterAll, HashBest, RepeatBest;
    seqs, literals := [], [];
    if |data| < MIN_MATCH {
      literals := data;
      return;
    }
    var hashTable := new nat[65536](_ => 0);
    assert hashTable[..] == Rep<nat>(0, 65536);
    ghost var st := AtStart();
    var h := START;
    var pos: nat, litStart: nat := 0, 0;
    while pos + MIN_MATCH <= |data|
      invariant litStart <= pos <= |data|
      invariant FinderOk(data, st) && st == Finder(pos, litStart, h, hashTable[..], seqs, literals)
      invariant Greedy(data, st) == Greedy(data, AtStart())
      decreases |data| - pos
    {
      var litLen := pos - litStart;
      var bestLen, bestOffset := RepeatMatch(data, pos, litLen, h);
      bestLen, bestOffset := HashMatch(data, pos, hashTable, bestLen, bestOffset);
      assert Match(bestLen, bestOffset) == BestAt(data, st);
      st := Round(data, st);
      if bestLen >= MIN_MATCH {
        literals := literals + data[litStart..pos];
        seqs := seqs + [Sequence(litLen, bestLen, bestOffset)];
        h := Shifted(bestOffset, litLen, h);
        HashRange(data, hashTable, pos + 1, pos + bestLen);
        pos := pos + bestLen;
        litStart := pos;
      } else {
        pos := pos + 1;
      }
    }
    if litStart < |data| {
      literals := literals + data[litStart..];
    } else {
      assert literals + data[litStart..] == literals;
    }
  }

  /** Enters the positions of a match into the hash table. */
  method HashRange(data: seq<Byte>, hashTable: array<nat>, from: nat, matchEnd: nat)
    requires hashTable.Length == 65536
    modifies hashTable
    ensures hashTable[..] == EnterAll(data, old(hashTable[..]), from, matchEnd)
  {
    var pos := from;
    while pos < matchEnd && pos + 4 <= |data|
      invariant EnterAll(data, hashTable[..], pos, matchEnd) == EnterAll(data, old(hashTable[..]), from, matchEnd)
    {
      hashTable[Hash4(data, pos)] := pos;
      pos := pos + 1;
    }
  }

  // ----- what is found is right -----

  /** A match under a recent offset is one, under a code that means that offset. Right after a
      match the latest offset cannot match again. */
  lemma {:induction false} RepeatFound(data: seq<Byte>, pos: nat, litLen: nat, h: History, n: nat)
    requires litLen <= pos < |data| && n <= 3 && HistoryOk(h) && Broken(data, pos, pos - litLen, h)
    ensures var m := RepeatBest(data, pos, litLen, h, n);
      Found(data, pos, litLen, h, m.len, m.code) && (litLen == 0 && n <= 1 ==> m.len == 0)
    decreases n
  {
    hide Found, HistoryOk, Repeats;
    NoneFound(data, pos, litLen, h);
    if n > 0 {
      RepeatFound(data, pos, litLen, h, n - 1);
      var off := Offset(h, n - 1);
      if 0 < off <= pos {
        LatestBroken(data, pos, litLen, h);
        var len := Common(data, pos - off, pos);
        if len >= MIN_MATCH && (litLen > 0 || n > 1) {
          RepeatIs(data, pos, litLen, h, n, len);
        }
      }
    }
  }

  lemma NoneFound(data: seq<Byte>, pos: nat, litLen: nat, h: History)
    ensures Found(data, pos, litLen, h, 0, 0)
  {
  }

  lemma LatestBroken(data: seq<Byte>, pos: nat, litLen: nat, h: History)
    requires litLen <= pos < |data| && HistoryOk(h) && Broken(data, pos, pos - litLen, h)
    ensures litLen == 0 && 0 < h.first <= pos ==> Common(data, pos - h.first, pos) == 0
  {
  }

  /** What the code of a match under recent offset `n - 1` means. */
  lemma RepeatIs(data: seq<Byte>, pos: nat, litLen: nat, h: History, n: nat, len: nat)
    requires 1 <= n <= 3 && (litLen > 0 || n > 1) && len >= MIN_MATCH && pos + len <= |data|
    requires 0 < Offset(h, n - 1) <= pos && len == Common(data, pos - Offset(h, n - 1), pos)
    ensures Found(data, pos, litLen, h, len, if litLen > 0 then n else n - 1)
  {
  }

  /** Whatever the hash table holds, a match taken from it is one. */
  lemma HashFound(data: seq<Byte>, pos: nat, litLen: nat, h: History, table: seq<nat>, best: Match)
    requires pos < |data| && |table| == 65536 && pos + best.len <= |data|
    requires Found(data, pos, litLen, h, best.len, best.code)
    ensures var m := HashBest(data, pos, table, best); Found(data, pos, litLen, h, m.len, m.code)
  {
    hide Hash4;
  }

  /** The state of the search is right: executing the sequences found so far rebuilds the data so far. */
  ghost predicate Right(data: seq<Byte>, st: Finder) {
    && FinderOk(data, st) && Rebuilt(data, st.seqs, st.literals, st.litStart, st.h)
    && Broken(data, st.pos, st.litStart, st.h)
  }

  lemma RoundRight(data: seq<Byte>, st: Finder)
    requires Right(data, st) && st.pos < |data|
    ensures Right(data, Round(data, st))
  {
    hide Rebuilt, Found, Shifted, Enter, EnterAll, HashBest, RepeatBest;
    var litLen, m := st.pos - st.litStart, BestAt(data, st);
    HistoryKept(data, st);
    RepeatFound(data, st.pos, litLen, st.h, 3);
    HashFound(data, st.pos, litLen, st.h, st.table, RepeatBest(data, st.pos, litLen, st.h, 3));
    if m.len >= MIN_MATCH {
      Grows(data, st.seqs, st.literals, st.litStart, st.h, st.pos, m.len, m.code);
      Breaks(data, st.pos, litLen, st.h, m.len, m.code);
    }
  }

  lemma HistoryKept(data: seq<Byte>, st: Finder)
    requires Right(data, st)
    ensures HistoryOk(st.h)
  {
  }

  lemma {:induction false} GreedyRight(data: seq<Byte>, st: Finder)
    requires Right(data, st)
    ensures Right(data, Greedy(data, st))
    decreases |data| - st.pos
  {
    hide Rebuilt, Broken, Round;
    if st.pos + MIN_MATCH <= |data| {
      RoundRight(data, st);
      GreedyRight(data, Round(data, st));
    }
  }

  /** Executed after any output from offsets 1, 4, 8, what is found appends the data. */
  lemma MatchesRepresent(data: seq<Byte>)
    ensures Represents(data, Matches(data).0, Matches(data).1)
  {
    hide Rebuilt, Represents, Greedy;
    NothingFound(data);
    if |data| < MIN_MATCH {
      AtEnd(data, [], [], 0, START);
      assert [] + data[0..] == data;
    } else {
      assert START.first > 0;
      GreedyRight(data, AtStart());
      var st := Greedy(data, AtStart());
      AtEnd(data, st.seqs, st.literals, st.litStart, st.h);
    }
  }

  lemma Breaks(data: seq<Byte>, pos: nat, litLen: nat, h: History, len: nat, code: nat)
    requires Found(data, pos, litLen, h, len, code) && len > 0 && HistoryOk(h)
    ensures pos + len <= |data| && HistoryOk(Shifted(code, litLen, h))
    ensures Broken(data, pos + len, pos + len, Shifted(code, litLen, h))
  {
    SameHistory(data, pos, litLen, h, len, code);
  }

  lemma AtEnd(data: seq<Byte>, seqs: seq<Sequence>, literals: seq<Byte>, litStart: nat, h: History)
    requires Rebuilt(data, seqs, literals, litStart, h)
    ensures litStart <= |data| && Represents(data, seqs, literals + data[litStart..])
  {
    RebuildsAll(data, seqs, literals, litStart, h);
  }

  /** One sequence that takes all the literals and repeats the latest offset. */
  lemma OneSequence(prefix: seq<Byte>, lits: seq<Byte>, s: Sequence, h: History)
    requires s.litLen == |lits| > 0 && s.offset == 1 && 1 <= h.first <= |prefix|
    ensures Execute([s], lits, prefix, h) == Some((CopyBack(prefix + lits, h.first, s.matchLen), h))
  {
    hide CopyBack;
    var start := Decoded(prefix, 0, h);
    assert [s][..0] == [];
    assert ExecuteAll([], lits, start) == Some(start);
    assert lits[0..|lits|] == lits;
    assert ExecuteOne(s, lits, start) == Some(Decoded(CopyBack(prefix + lits, h.first, s.matchLen), |lits|, h));
  }
}
