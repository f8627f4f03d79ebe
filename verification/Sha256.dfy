/** Streaming SHA-256: whatever the pieces, the hash is that of the whole message, padded as in
    section 5.1.1 of FIPS 180-4. The compression function is a parameter. */
module Sha256 {
  import opened Bytes

  const BLOCK: nat := 64

  type Word = w: nat | w < 0x1_0000_0000

  type State = s: seq<Word> | |s| == 8 witness [0, 0, 0, 0, 0, 0, 0, 0]

  /** The blocks of a message, compressed one after another. */
  function Fold(compress: (State, seq<Byte>) -> State, init: State, message: seq<Byte>): State
    requires |message| % BLOCK == 0
    decreases |message|
  {
    if message == [] then init
    else
      var front := |message| - BLOCK;
      compress(Fold(compress, init, message[..front]), message[front..])
  }

  /** A number in `n` bytes, most significant first. */
  function BigEndian(v: nat, n: nat): (r: seq<Byte>)
    ensures |r| == n
    decreases n
  {
    if n == 0 then [] else BigEndian(v / 256, n - 1) + [v % 256]
  }

  /** The words of a state as bytes. */
  function WordBytes(words: seq<Word>): (r: seq<Byte>)
    ensures |r| == 4 * |words|
  {
    if words == [] then [] else WordBytes(words[..|words| - 1]) + BigEndian(words[|words| - 1], 4)
  }

  lemma {:induction false} BigEndianOnce(v: nat, w: nat, n: nat)
    requires BigEndian(v, n) == BigEndian(w, n) && v < Bytes256(n) && w < Bytes256(n)
    ensures v == w
    decreases n
  {
    if n > 0 {
      var a, b := BigEndian(v, n), BigEndian(w, n);
      assert a[..n - 1] == BigEndian(v / 256, n - 1) && a[n - 1] as int == v % 256;
      assert b[..n - 1] == BigEndian(w / 256, n - 1) && b[n - 1] as int == w % 256;
      BigEndianOnce(v / 256, w / 256, n - 1);
    }
  }

  function Bytes256(n: nat): nat {
    if n == 0 then 1 else 256 * Bytes256(n - 1)
  }

  /** Different states have different hashes. */
  lemma {:induction false} WordBytesOnce(a: seq<Word>, b: seq<Word>)
    requires |a| == |b| && WordBytes(a) == WordBytes(b)
    ensures a == b
    decreases |a|
  {
    if a != [] {
      hide BigEndian, Bytes256, WordBytes;
      var last := |a| - 1;
      Halves(a, b, last);
      WordBytesOnce(a[..last], b[..last]);
      SameWord(a[last], b[last]);
      Rejoined(a, b, last);
    }
  }

  lemma LastWord(words: seq<Word>, last: nat)
    requires |words| == last + 1
    ensures WordBytes(words)[..4 * last] == WordBytes(words[..last])
    ensures WordBytes(words)[4 * last..] == BigEndian(words[last], 4)
  {
    hide BigEndian;
  }

  lemma Halves(a: seq<Word>, b: seq<Word>, last: nat)
    requires |a| == |b| == last + 1 && WordBytes(a) == WordBytes(b)
    ensures WordBytes(a[..last]) == WordBytes(b[..last]) && BigEndian(a[last], 4) == BigEndian(b[last], 4)
  {
    hide BigEndian, WordBytes;
    LastWord(a, last);
    LastWord(b, last);
  }

  lemma Rejoined(a: seq<Word>, b: seq<Word>, last: nat)
    requires |a| == |b| == last + 1 && a[..last] == b[..last] && a[last] == b[last]
    ensures a == b
  {
    assert a == a[..last] + [a[last]] && b == b[..last] + [b[last]];
  }

  lemma SameWord(v: Word, w: Word)
    requires BigEndian(v, 4) == BigEndian(w, 4)
    ensures v == w
  {
    hide BigEndian, Bytes256;
    FourBytes();
    BigEndianOnce(v, w, 4);
  }

  lemma FourBytes()
    ensures Bytes256(4) == 0x1_0000_0000
  {
    assert Bytes256(2) == 0x1_0000;
  }

  /** Byte by byte, each word from its highest byte down. */
  method ToBytes(words: seq<Word>) returns (result: seq<Byte>)
    ensures result == WordBytes(words)
  {
    hide BigEndian;
    result := [];
    var i := 0;
    while i < |words|
      invariant i <= |words| && result == WordBytes(words[..i])
    {
      var w := words[i];
      FourOf(w);
      assert words[..i + 1][..i] == words[..i];
      result := result + [w / 0x100_0000, w / 0x1_0000 % 256, w / 0x100 % 256, w % 256];
      i := i + 1;
    }
    assert words[..i] == words;
  }

  lemma FourOf(w: Word)
    ensures BigEndian(w, 4) == [w / 0x100_0000, w / 0x1_0000 % 256, w / 0x100 % 256, w % 256]
  {
    var a, b, c := w / 256, w / 256 / 256, w / 256 / 256 / 256;
    assert BigEndian(c, 1) == [] + [c % 256];
    assert BigEndian(b, 2) == BigEndian(c, 1) + [b % 256];
    assert BigEndian(a, 3) == BigEndian(b, 2) + [a % 256];
  }

  /** As many zero bytes as bring the message, 0x80 and them to 56 modulo 64, and no more. */
  function ZeroCount(length: nat): (z: nat)
    ensures z < BLOCK && (length + 1 + z) % BLOCK == 56
  {
    (119 - length % BLOCK) % BLOCK
  }

  function Padded(message: seq<Byte>): (r: seq<Byte>)
    ensures |r| % BLOCK == 0
  {
    var r := message + ([0x80] + Rep<Byte>(0, ZeroCount(|message|))) + BigEndian(8 * |message|, 8);
    PaddedLength(|message|, ZeroCount(|message|));
    assert |r| == |message| + (1 + ZeroCount(|message|)) + 8;
    r
  }

  lemma PadLength(n: nat, rest: nat)
    requires rest == n % BLOCK
    ensures (if rest < 56 then 56 - rest else 120 - rest) == 1 + ZeroCount(n)
  {
  }

  /** Different messages are padded differently, as long as their bit counts fit eight bytes. */
  lemma PaddedOnce(a: seq<Byte>, b: seq<Byte>)
    requires 8 * |a| < Bytes256(8) && 8 * |b| < Bytes256(8) && Padded(a) == Padded(b)
    ensures a == b
  {
    hide BigEndian, Bytes256;
    PaddedEnds(a);
    PaddedEnds(b);
    BigEndianOnce(8 * |a|, 8 * |b|, 8);
  }

  lemma PaddedEnds(message: seq<Byte>)
    ensures var r := Padded(message);
      |r| >= |message| + 9 && r[..|message|] == message && r[|message|] == 0x80
      && r[|r| - 8..] == BigEndian(8 * |message|, 8)
  {
    hide BigEndian;
  }

  lemma PaddedLength(n: nat, z: nat)
    requires (n + 1 + z) % BLOCK == 56
    ensures (n + (1 + z) + 8) % BLOCK == 0
  {
  }

  lemma FoldMore(compress: (State, seq<Byte>) -> State, init: State, message: seq<Byte>, block: seq<Byte>)
    requires |message| % BLOCK == 0 && |block| == BLOCK
    ensures Fold(compress, init, message + block) == compress(Fold(compress, init, message), block)
  {
    var m := message + block;
    assert m[..|m| - BLOCK] == message && m[|m| - BLOCK..] == block;
  }

  class Hasher {
    const compress: (State, seq<Byte>) -> State
    ghost const init: State
    var state: State
    var count: nat
    const buffer: array<Byte>
    var buflen: nat
    ghost var taken: seq<Byte>

    /** The state has all whole blocks taken so far; the buffer has the rest. */
    ghost predicate Ok()
      reads this, buffer
    {
      && buffer.Length == BLOCK && buflen < BLOCK && count == |taken|
      && Split(taken, buffer[..buflen])
      && state == Fold(compress, init, Whole(taken, buflen))
    }

    constructor (compress: (State, seq<Byte>) -> State, init: State)
      ensures Ok() && taken == [] && this.compress == compress && this.init == init && fresh(buffer)
    {
      this.compress, this.init := compress, init;
      state, count, buflen := init, 0, 0;
      buffer := new Byte[BLOCK](_ => 0);
      taken := [];
      new;
      assert Whole(taken, 0) == [];
    }

    /** Fills up the buffer; a full block is compressed. */
    method TopUp(data: seq<Byte>) returns (offset: nat)
      requires Ok() && buflen > 0
      modifies this`state, this`count, this`buflen, this`taken, buffer
      ensures Ok() && offset <= |data| && taken == old(taken) + data[..offset]
      ensures offset < |data| ==> buflen == 0
    {
      hide Fold;
      ghost var was := buffer[..buflen];
      var space := BLOCK - buflen;
      offset := if space < |data| then space else |data|;
      CopyIn(buffer, buflen, data[..offset]);
      ghost var now := was + data[..offset];
      assert buffer[..buflen + offset] == now;
      count := count + offset;
      if buflen + offset == BLOCK {
        BlockFilled(taken, was, data[..offset], buflen);
        FoldMore(compress, init, Whole(taken, buflen), now);
        assert buffer[..] == now;
        state := compress(state, buffer[..]);
        taken := taken + data[..offset];
        buflen := 0;
        assert Whole(taken, 0) == taken && buffer[..0] == [];
      } else {
        StillSplit(taken, was, data[..offset]);
        buflen := buflen + offset;
        taken := taken + data[..offset];
      }
    }

    method Update(data: seq<Byte>)
      requires Ok()
      modifies this`state, this`count, this`buflen, this`taken, buffer
      ensures Ok() && taken == old(taken) + data
    {
      hide Fold, Split, Whole;
      ghost var start := taken;
      var offset := 0;
      assert data[..0] == [] && start + [] == start;
      if buflen > 0 {
        offset := TopUp(data);
      }
      assert offset == |data| ==> data[..offset] == data;
      if offset < |data| {
        Compress(data, offset, start);
      }
    }

    /** The whole blocks, and what is left of the data. */
    method Compress(data: seq<Byte>, from: nat, ghost start: seq<Byte>)
      requires Ok() && buflen == 0 && from < |data| && taken == start + data[..from]
      modifies this`state, this`count, this`buflen, this`taken, buffer
      ensures Ok() && taken == start + data
    {
      hide Fold;
      var offset := from;
      NothingBuffered(taken, buffer[..0]);
      while offset + BLOCK <= |data|
        invariant from <= offset <= |data| && buffer.Length == BLOCK && buflen == 0
        invariant taken == start + data[..offset] && |taken| % BLOCK == 0 && count == |taken|
        invariant state == Fold(compress, init, taken)
      {
        var block := data[offset..offset + BLOCK];
        FoldMore(compress, init, taken, block);
        assert data[..offset + BLOCK] == data[..offset] + block;
        Assoc(start, data[..offset], block);
        state := compress(state, block);
        taken := taken + block;
        count := count + BLOCK;
        offset := offset + BLOCK;
      }
      Remainder(start, data, offset);
      CopyIn(buffer, 0, data[offset..]);
      buflen := |data| - offset;
      count := count + buflen;
      assert buffer[..buflen] == [] + data[offset..];
      taken := start + data;
      assert buffer[..buflen] == data[offset..];
    }

    /** Pads, and returns the words of the state as bytes. The length is kept in 64 bits. */
    method Finalize() returns (digest: seq<Byte>)
      requires Ok() && 8 * count < 0x1_0000_0000_0000_0000
      modifies this`state, this`count, this`buflen, this`taken, buffer
      ensures Ok() && taken == Padded(old(taken)) && state == Fold(compress, init, Padded(old(taken)))
      ensures digest == WordBytes(state)
    {
      hide Fold, ZeroCount;
      var bitLen := 8 * count;
      ghost var message := taken;
      SplitMeans(taken, buffer[..buflen]);
      var padLen := if buflen < 56 then 56 - buflen else 120 - buflen;
      PadLength(|message|, buflen);
      Update([0x80] + Rep<Byte>(0, padLen - 1));
      Update(BigEndian(bitLen, 8));
      SplitMeans(taken, buffer[..buflen]);
      assert Whole(taken, 0) == taken;
      digest := ToBytes(state);
    }
  }

  /** What is taken ends with the buffered bytes, after whole blocks. */
  ghost predicate Split(taken: seq<Byte>, rest: seq<Byte>) {
    |rest| < BLOCK && |rest| <= |taken| && (|taken| - |rest|) % BLOCK == 0 && taken[|taken| - |rest|..] == rest
  }

  ghost function Whole(taken: seq<Byte>, n: nat): seq<Byte> {
    if n <= |taken| then taken[..|taken| - n] else []
  }

  lemma NothingBuffered(taken: seq<Byte>, none: seq<Byte>)
    requires none == [] && Split(taken, none)
    ensures |taken| % BLOCK == 0 && Whole(taken, 0) == taken
  {
  }

  lemma SplitMeans(taken: seq<Byte>, rest: seq<Byte>)
    requires Split(taken, rest)
    ensures |rest| == |taken| % BLOCK
  {
  }

  lemma StillSplit(taken: seq<Byte>, rest: seq<Byte>, more: seq<Byte>)
    requires Split(taken, rest) && |rest| + |more| < BLOCK
    ensures Split(taken + more, rest + more)
    ensures Whole(taken + more, |rest| + |more|) == Whole(taken, |rest|)
  {
  }

  lemma BlockFilled(taken: seq<Byte>, rest: seq<Byte>, more: seq<Byte>, n: nat)
    requires Split(taken, rest) && |rest| + |more| == BLOCK && n == |rest|
    ensures |Whole(taken, n)| % BLOCK == 0 && Whole(taken, n) + (rest + more) == taken + more
    ensures |taken + more| % BLOCK == 0
  {
    assert taken == Whole(taken, n) + rest;
    Assoc(Whole(taken, n), rest, more);
  }

  lemma Remainder(start: seq<Byte>, data: seq<Byte>, offset: nat)
    requires offset <= |data| < offset + BLOCK && |start + data[..offset]| % BLOCK == 0
    ensures Split(start + data, data[offset..]) && Whole(start + data, |data| - offset) == start + data[..offset]
  {
    assert data == data[..offset] + data[offset..];
    Assoc(start, data[..offset], data[offset..]);
  }

  method CopyIn(buffer: array<Byte>, at: nat, data: seq<Byte>)
    requires at + |data| <= buffer.Length
    modifies buffer
    ensures buffer[..at + |data|] == old(buffer[..at]) + data
  {
    var i := 0;
    while i < |data|
      invariant i <= |data| && buffer[..at + i] == old(buffer[..at]) + data[..i]
    {
      buffer[at + i] := data[i];
      i := i + 1;
    }
    assert data[..i] == data;
  }

  function Joined(parts: seq<seq<Byte>>): seq<Byte> {
    if parts == [] then [] else Joined(parts[..|parts| - 1]) + parts[|parts| - 1]
  }

  /** Hashing in pieces gives the hash of the joined message, however it is cut. */
  method HashParts(compress: (State, seq<Byte>) -> State, init: State, parts: seq<seq<Byte>>)
      returns (digest: seq<Byte>)
    requires 8 * |Joined(parts)| < 0x1_0000_0000_0000_0000
    ensures digest == WordBytes(Fold(compress, init, Padded(Joined(parts)))) && |digest| == 32
  {
    hide Fold;
    var hasher := new Hasher(compress, init);
    var i := 0;
    while i < |parts|
      invariant i <= |parts| && fresh(hasher) && fresh(hasher.buffer)
      invariant hasher.compress == compress && hasher.init == init
      invariant hasher.Ok() && hasher.taken == Joined(parts[..i])
    {
      assert parts[..i + 1][..i] == parts[..i];
      hasher.Update(parts[i]);
      i := i + 1;
    }
    assert parts[..i] == parts;
    digest := hasher.Finalize();
  }
}
