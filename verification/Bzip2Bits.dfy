/** The most-significant-bit-first bit streams of bzip2, and its Huffman decoder. */
module Bzip2Bits {
  import opened Bytes
  import opened CanonicalHuffman

  /** The bits of some bytes, each from its top bit down. */
  function BitsOf(data: seq<Byte>): (r: seq<Bit>)
    ensures |r| == 8 * |data|
  {
    if data == [] then [] else BitsOf(data[..|data| - 1]) + ToBits(data[|data| - 1], 8)
  }

  lemma {:induction false} BitsOfAppend(a: seq<Byte>, b: seq<Byte>)
    ensures BitsOf(a + b) == BitsOf(a) + BitsOf(b)
    decreases |b|
  {
    if b == [] {
      assert a + b == a;
      assert BitsOf(a) + [] == BitsOf(a);
    } else {
      var init, last := b[..|b| - 1], b[|b| - 1];
      assert (a + b)[..|a + b| - 1] == a + init;
      BitsOfAppend(a, init);
      Assoc(BitsOf(a), BitsOf(init), ToBits(last, 8));
    }
  }

  lemma BitsOfOne(b: Byte)
    ensures BitsOf([b]) == ToBits(b, 8)
  {
    assert BitsOf([]) == [] && [b][..0] == [];
  }

  class BitWriter {
    var data: seq<Byte>
    var buffer: nat
    var bits: nat

    ghost predicate Ok()
      reads this
    {
      bits < 8 && buffer < Pow2(bits)
    }

    /** Everything written so far. */
    ghost function Written(): seq<Bit>
      reads this
    {
      BitsOf(data) + ToBits(buffer, bits)
    }

    constructor ()
      ensures Ok() && Written() == [] && data == []
    {
      data, buffer, bits := [], 0, 0;
    }

    method WriteBits(value: nat, count: nat)
      requires Ok()
      modifies this
      ensures Ok() && Written() == old(Written()) + ToBits(value, count)
    {
      hide BitsOf, BitOf, Pow2;
      var i: nat := count;
      assert ToBits(value, 0) == [];
      ghost var start := Written();
      assert start + ToBits(value, count) == start + [] + ToBits(value, count);
      while i > 0
        invariant i <= count && Ok()
        invariant Written() + ToBits(value, i) == start + ToBits(value, count)
      {
        i := i - 1;
        ghost var w := Written();
        var bit := BitOf(value, i);
        ToBitsFirst(value, i + 1);
        Assoc(w, [bit], ToBits(value, i));
        WriteBit(bit);
      }
      assert Written() + [] == Written();
    }

    method WriteBit(bit: Bit)
      requires Ok()
      modifies this
      ensures Ok() && Written() == old(Written()) + [bit]
    {
      hide ToBits, Pow2, BitsOf;
      PushBit(data, buffer, bits, bit);
      buffer := 2 * buffer + bit;
      bits := bits + 1;
      if bits == 8 {
        FullByte(data, buffer);
        data := data + [buffer];
        buffer, bits := 0, 0;
      }
    }

    /** Fills the last byte with zero bits. */
    method Flush()
      requires Ok()
      modifies this
      ensures Ok() && bits == 0
      ensures exists pad :: |pad| < 8 && Written() == BitsOf(data) == old(Written()) + pad
    {
      hide ToBits, Pow2, BitsOf;
      if bits > 0 {
        PadByte(data, buffer, bits);
        data := data + [buffer * Pow2(8 - bits)];
        buffer, bits := 0, 0;
      } else {
        NoBits(data, buffer);
        assert Written() == Written() + [];
      }
    }
  }

  lemma NoBits(data: seq<Byte>, buffer: nat)
    ensures BitsOf(data) + ToBits(buffer, 0) == BitsOf(data)
    ensures Pow2(0) == 1
  {
  }

  lemma PushBit(data: seq<Byte>, buffer: nat, bits: nat, bit: Bit)
    requires buffer < Pow2(bits)
    ensures BitsOf(data) + ToBits(2 * buffer + bit, bits + 1) == BitsOf(data) + ToBits(buffer, bits) + [bit]
    ensures 2 * buffer + bit < Pow2(bits + 1)
  {
    hide BitsOf;
    var v := 2 * buffer + bit;
    DivUnique(v, 2, buffer, bit);
    assert ToBits(v, bits + 1) == ToBits(buffer, bits) + [bit];
    Assoc(BitsOf(data), ToBits(buffer, bits), [bit]);
  }

  lemma FullByte(data: seq<Byte>, buffer: nat)
    requires buffer < Pow2(8)
    ensures buffer < 256
    ensures BitsOf(data + [buffer]) + ToBits(0, 0) == BitsOf(data) + ToBits(buffer, 8)
    ensures Pow2(0) == 1
  {
    hide ToBits, Pow2, BitsOf;
    Pow2Eight();
    BitsOfAppend(data, [buffer]);
    BitsOfOne(buffer);
    NoBits(data + [buffer], 0);
  }

  lemma PadByte(data: seq<Byte>, buffer: nat, bits: nat)
    requires 0 < bits < 8 && buffer < Pow2(bits)
    ensures buffer * Pow2(8 - bits) < 256
    ensures var d := data + [buffer * Pow2(8 - bits)];
      && BitsOf(d) == BitsOf(data) + ToBits(buffer, bits) + ToBits(0, 8 - bits)
      && BitsOf(d) + ToBits(0, 0) == BitsOf(d)
    ensures Pow2(0) == 1
  {
    hide ToBits, Pow2, BitsOf, Twice;
    Shifted(buffer, bits, 8 - bits);
    TwiceIs(buffer, 8 - bits);
    Pow2Eight();
    var last := buffer * Pow2(8 - bits);
    BitsOfAppend(data, [last]);
    BitsOfOne(last);
    Assoc(BitsOf(data), ToBits(buffer, bits), ToBits(0, 8 - bits));
    NoBits(data + [last], 0);
  }

  /** `v` doubled `k` times. */
  function Twice(v: nat, k: nat): nat {
    if k == 0 then v else 2 * Twice(v, k - 1)
  }

  lemma {:induction false} TwiceIs(v: nat, k: nat)
    ensures Twice(v, k) == v * Pow2(k)
    decreases k
  {
    if k > 0 {
      TwiceIs(v, k - 1);
      MulAssoc(v, 2, Pow2(k - 1));
    }
  }

  lemma {:induction false} Shifted(v: nat, n: nat, k: nat)
    requires v < Pow2(n)
    ensures ToBits(Twice(v, k), n + k) == ToBits(v, n) + ToBits(0, k) && Twice(v, k) < Pow2(n + k)
    decreases k
  {
    if k == 0 {
      assert ToBits(v, n) + [] == ToBits(v, n);
    } else {
      Shifted(v, n, k - 1);
      EvenBits(Twice(v, k - 1), n + k - 1, Twice(v, k));
      ZeroBits(k);
      Assoc(ToBits(v, n), ToBits(0, k - 1), [0]);
    }
  }

  lemma EvenBits(half: nat, n: nat, v: nat)
    requires v == 2 * half
    ensures ToBits(v, n + 1) == ToBits(half, n) + [0]
  {
  }

  lemma ZeroBits(k: nat)
    requires k > 0
    ensures ToBits(0, k) == ToBits(0, k - 1) + [0]
  {
  }

  class BitReader {
    const data: seq<Byte>
    var pos: nat
    var buffer: nat
    var bits: nat

    ghost predicate Ok()
      reads this
    {
      pos <= |data| && bits <= 8
    }

    /** The bits still to be read. */
    ghost function Remaining(): seq<Bit>
      requires pos <= |data|
      reads this
    {
      ToBits(buffer, bits) + BitsOf(data[pos..])
    }

    constructor (data: seq<Byte>)
      ensures Ok() && Remaining() == BitsOf(data)
    {
      this.data := data;
      pos, buffer, bits := 0, 0, 0;
      new;
      assert data[0..] == data && ToBits(buffer, 0) == [];
      assert [] + BitsOf(data) == BitsOf(data);
    }

    /** Reads `count` bits. At the end of the data it returns what it has. */
    method ReadBits(count: nat) returns (result: nat)
      requires Ok()
      modifies this`pos, this`buffer, this`bits
      ensures Ok()
      ensures var n := if count <= |old(Remaining())| then count else |old(Remaining())|;
        result == FromBits(old(Remaining())[..n]) && Remaining() == old(Remaining())[n..]
    {
      hide ToBits, Pow2, BitsOf, FromBits, BitOf;
      ghost var start := Remaining();
      result := 0;
      var i: nat := 0;
      assert start[..0] == [] && start[0..] == start;
      NoBitsRead();
      while i < count
        invariant Ok() && i <= count && i <= |start|
        invariant result == FromBits(start[..i]) && Remaining() == start[i..]
      {
        ghost var before := Remaining();
        if bits == 0 {
          if pos < |data| {
            NextByte(data, pos, buffer);
            buffer := data[pos];
            pos := pos + 1;
            bits := 8;
          } else {
            NothingLeft(data, pos, buffer);
            return result;
          }
        }
        assert Remaining() == before;
        TakeBit(buffer, bits, BitsOf(data[pos..]));
        bits := bits - 1;
        var bit := BitOf(buffer, bits);
        AddBit(start, i, bit);
        result := 2 * result + bit;
        i := i + 1;
      }
    }

    /** Reading what was written: `count` bits of a value that fits. */
    method Expect(count: nat, ghost value: nat, ghost rest: seq<Bit>) returns (result: nat)
      requires Ok() && Remaining() == ToBits(value, count) + rest && value < Pow2(count)
      modifies this`pos, this`buffer, this`bits
      ensures Ok() && result == value && Remaining() == rest
    {
      ghost var start := Remaining();
      assert start[..count] == ToBits(value, count) && start[count..] == rest;
      BitsRoundTrip(value, count);
      result := ReadBits(count);
    }
  }

  lemma NoBitsRead()
    ensures FromBits([]) == 0
  {
  }

  lemma NextByte(data: seq<Byte>, pos: nat, buffer: nat)
    requires pos < |data|
    ensures ToBits(buffer, 0) + BitsOf(data[pos..]) == ToBits(data[pos], 8) + BitsOf(data[pos + 1..])
  {
    hide ToBits;
    BitsOfAppend([data[pos]], data[pos + 1..]);
    BitsOfOne(data[pos]);
    assert data[pos..] == [data[pos]] + data[pos + 1..];
    assert ToBits(buffer, 0) == [];
  }

  lemma NothingLeft(data: seq<Byte>, pos: nat, buffer: nat)
    requires pos == |data|
    ensures ToBits(buffer, 0) + BitsOf(data[pos..]) == []
  {
  }

  lemma TakeBit(buffer: nat, bits: nat, rest: seq<Bit>)
    requires bits > 0
    ensures ToBits(buffer, bits) + rest == [BitOf(buffer, bits - 1)] + (ToBits(buffer, bits - 1) + rest)
  {
    ToBitsFirst(buffer, bits);
  }

  // ----- decoding a symbol -----

  datatype HuffmanDecoder = HuffmanDecoder(maxLen: nat, codes: seq<Code>)
  {
    /** Built from `lengths`. */
    ghost predicate From(lengths: seq<nat>) {
      maxLen == MaxLen(lengths) && codes == Table(lengths, |lengths|)
    }

    static method FromLengths(lengths: seq<nat>) returns (d: HuffmanDecoder)
      ensures d.From(lengths)
    {
      var codes, maxLen := BuildCodes(lengths);
      d := HuffmanDecoder(maxLen, codes);
    }

    /** Reading a codeword gives its symbol and takes exactly its bits. */
    method Decode(reader: BitReader, ghost lengths: seq<nat>, ghost s: nat, ghost rest: seq<Bit>) returns (symbol: nat)
      requires From(lengths) && Kraft(lengths) && s < |lengths| && lengths[s] > 0
      requires reader.Ok() && reader.Remaining() == ToBits(CodeOf(lengths, s), lengths[s]) + rest
      modifies reader`pos, reader`buffer, reader`bits
      ensures symbol == s && reader.Ok() && reader.Remaining() == rest
    {
      hide ToBits, Pow2, FromBits, Kraft, CodeOf, Table;
      ghost var word, n := ToBits(CodeOf(lengths, s), lengths[s]), lengths[s];
      symbol := 0;
      var code: nat := 0;
      var len: nat := 1;
      NoBitsRead();
      assert word[..0] == [] && word[0..] == word;
      while len <= maxLen
        invariant 1 <= len <= n && reader.Ok()
        invariant code == FromBits(word[..len - 1])
        invariant reader.Remaining() == word[len - 1..] + rest
      {
        var bit := reader.ReadBits(1);
        OneMoreBit(word, len, rest);
        code := 2 * code + bit;
        CodePrefix(lengths, s, len);
        var found := Lookup(codes, code, len);
        LookupPrefix(lengths, s, len, found);
        if found.Some? {
          assert word[len..] + rest == rest;
          return found.value;
        }
        len := len + 1;
      }
      assert false;
    }
  }

  lemma OneMoreBit(word: seq<Bit>, len: nat, rest: seq<Bit>)
    requires 1 <= len <= |word|
    ensures var before := word[len - 1..] + rest;
      && FromBits(word[..len]) == 2 * FromBits(word[..len - 1]) + FromBits(before[..1])
      && before[1..] == word[len..] + rest
  {
    var before := word[len - 1..] + rest;
    assert before[..1] == [word[len - 1]];
    assert FromBits([word[len - 1]]) == word[len - 1] by { assert [word[len - 1]][..0] == []; }
    AddBit(word, len - 1, word[len - 1]);
  }
}
