/** Bits packed into bytes least significant first, as LZW and the tables of zstd are. */
module LsbFirst {
  import opened Bytes

  function LsbBits(v: nat, n: nat): (r: seq<Bit>)
    ensures |r| == n
    decreases n
  {
    if n == 0 then [] else [v % 2] + LsbBits(v / 2, n - 1)
  }

  function FromLsb(b: seq<Bit>): nat {
    if b == [] then 0 else b[0] + 2 * FromLsb(b[1..])
  }

  lemma {:induction false} LsbRoundTrip(v: nat, n: nat)
    requires v < Pow2(n)
    ensures FromLsb(LsbBits(v, n)) == v
    decreases n
  {
    if n > 0 {
      LsbRoundTrip(v / 2, n - 1);
      assert LsbBits(v, n)[1..] == LsbBits(v / 2, n - 1);
    }
  }

  function ByteBits(data: seq<Byte>): (r: seq<Bit>)
    ensures |r| == 8 * |data|
  {
    if data == [] then [] else ByteBits(data[..|data| - 1]) + LsbBits(data[|data| - 1], 8)
  }

  /** Low and high part of a number, as bits. */
  lemma {:induction false} LsbSplit(low: nat, k: nat, high: nat, n: nat)
    requires low < Pow2(k)
    ensures LsbBits(low + high * Pow2(k), k + n) == LsbBits(low, k) + LsbBits(high, n)
    decreases k
  {
    if k == 0 {
      assert [] + LsbBits(high, n) == LsbBits(high, n);
    } else {
      var v := low + high * Pow2(k);
      MulAssoc(high, 2, Pow2(k - 1));
      var half := high * Pow2(k - 1);
      assert v == low + 2 * half;
      assert v % 2 == low % 2 && v / 2 == low / 2 + half;
      LsbSplit(low / 2, k - 1, high, n);
      Assoc([low % 2], LsbBits(low / 2, k - 1), LsbBits(high, n));
    }
  }

  /** The bit packer of the encoders. */
  class Packer {
    var output: seq<Byte>
    var bitBuffer: nat
    var bitsInBuffer: nat

    ghost predicate Ok()
      reads this
    {
      bitsInBuffer < 8 && bitBuffer < Pow2(bitsInBuffer)
    }

    ghost function Written(): seq<Bit>
      reads this
    {
      ByteBits(output) + LsbBits(bitBuffer, bitsInBuffer)
    }

    constructor ()
      ensures Ok() && Written() == [] && output == []
    {
      output, bitBuffer, bitsInBuffer := [], 0, 0;
    }

    /** Appends a code, moving complete bytes to the output. The buffer has no bit set at or
        above `bitsInBuffer`, so or-ing the shifted code in is an addition. */
    method EmitCode(code: nat, currentBits: nat)
      requires Ok() && code < Pow2(currentBits)
      modifies this
      ensures Ok() && Written() == old(Written()) + LsbBits(code, currentBits)
    {
      hide LsbBits, Pow2, ByteBits;
      ghost var start := Written() + LsbBits(code, currentBits);
      LsbSplit(bitBuffer, bitsInBuffer, code, currentBits);
      Fits(bitBuffer, bitsInBuffer, code, currentBits);
      Assoc(ByteBits(output), LsbBits(bitBuffer, bitsInBuffer), LsbBits(code, currentBits));
      bitBuffer := bitBuffer + code * Pow2(bitsInBuffer);
      bitsInBuffer := bitsInBuffer + currentBits;
      while bitsInBuffer >= 8
        invariant bitBuffer < Pow2(bitsInBuffer) && Written() == start
        decreases bitsInBuffer
      {
        FlushByte(output, bitBuffer, bitsInBuffer);
        output := output + [bitBuffer % 256];
        bitBuffer := bitBuffer / 256;
        bitsInBuffer := bitsInBuffer - 8;
      }
    }

    /** Writes out what is left. */
    method Flush()
      requires Ok()
      modifies this
      ensures exists pad :: |pad| < 8 && ByteBits(output) == old(Written()) + pad
    {
      hide LsbBits, Pow2, ByteBits;
      if bitsInBuffer > 0 {
        PadLast(output, bitBuffer, bitsInBuffer);
        output := output + [bitBuffer];
      } else {
        Empty(output, bitBuffer);
        assert ByteBits(output) == ByteBits(output) + [];
      }
    }
  }

  lemma Empty(output: seq<Byte>, buffer: nat)
    ensures ByteBits(output) + LsbBits(buffer, 0) == ByteBits(output)
  {
  }

  lemma Fits(low: nat, k: nat, high: nat, n: nat)
    requires low < Pow2(k) && high < Pow2(n)
    ensures low + high * Pow2(k) < Pow2(k + n)
  {
    Pow2Add(k, n);
    var p := Pow2(k);
    MulMonotone(high + 1, Pow2(n), p);
    MulAdd(high, 1, p);
  }

  lemma SnocBits(output: seq<Byte>, b: Byte)
    ensures ByteBits(output + [b]) == ByteBits(output) + LsbBits(b, 8)
  {
    assert (output + [b])[..|output|] == output;
  }

  lemma FlushByte(output: seq<Byte>, buffer: nat, bits: nat)
    requires bits >= 8 && buffer < Pow2(bits)
    ensures ByteBits(output + [buffer % 256]) + LsbBits(buffer / 256, bits - 8)
        == ByteBits(output) + LsbBits(buffer, bits)
    ensures buffer / 256 < Pow2(bits - 8)
  {
    hide LsbBits, ByteBits;
    Pow2Eight();
    LsbSplit(buffer % 256, 8, buffer / 256, bits - 8);
    SnocBits(output, buffer % 256);
    Assoc(ByteBits(output), LsbBits(buffer % 256, 8), LsbBits(buffer / 256, bits - 8));
    Pow2Add(8, bits - 8);
    var q, p := buffer / 256, Pow2(bits - 8);
    assert buffer == q * 256 + buffer % 256;
    assert q < p;
  }

  lemma PadLast(output: seq<Byte>, buffer: nat, bits: nat)
    requires 0 < bits < 8 && buffer < Pow2(bits)
    ensures buffer < 256
    ensures ByteBits(output + [buffer]) == ByteBits(output) + LsbBits(buffer, bits) + LsbBits(0, 8 - bits)
  {
    hide LsbBits, ByteBits;
    Pow2Eight();
    Pow2Monotone(bits, 8);
    LsbSplit(buffer, bits, 0, 8 - bits);
    SnocBits(output, buffer);
    Assoc(ByteBits(output), LsbBits(buffer, bits), LsbBits(0, 8 - bits));
  }

  lemma {:induction false} LsbBitAt(v: nat, n: nat, k: nat)
    requires k < n
    ensures LsbBits(v, n)[k] == BitOf(v, k)
    decreases k
  {
    if k > 0 {
      LsbBitAt(v / 2, n - 1, k - 1);
      DivDiv(v, k - 1);
    }
  }

  lemma {:induction false} ByteBitAt(data: seq<Byte>, p: nat)
    requires p < 8 * |data|
    ensures ByteBits(data)[p] == BitOf(data[p / 8], p % 8)
    decreases |data|
  {
    hide LsbBits, Pow2;
    var last := |data| - 1;
    if p < 8 * last {
      ByteBitAt(data[..last], p);
    } else {
      LsbBitAt(data[last], 8, p - 8 * last);
    }
  }

  lemma {:induction false} FromLsbSnoc(b: seq<Bit>, x: Bit)
    ensures FromLsb(b + [x]) == FromLsb(b) + x * Pow2(|b|)
    decreases |b|
  {
    if b == [] {
      assert FromLsb([x][1..]) == 0;
    } else {
      FromLsbSnoc(b[1..], x);
      assert (b + [x])[1..] == b[1..] + [x];
      MulAssoc(x, 2, Pow2(|b| - 1));
    }
  }

  lemma NoLsb()
    ensures FromLsb([]) == 0
  {
  }

  /** The next `bits` bits as a number, or nothing if the data ends before. */
  method GetBits(data: seq<Byte>, start: nat, bits: nat) returns (value: Option<nat>, bitPos: nat)
    ensures if start + bits <= 8 * |data|
            then value == Some(FromLsb(ByteBits(data)[start..start + bits])) && bitPos == start + bits
            else value == None
  {
    hide ByteBits, Pow2, FromLsb, BitOf;
    var c: nat := 0;
    assert FromLsb([]) == 0 by { NoLsb(); }
    assert start <= 8 * |data| ==> ByteBits(data)[start..start] == [];
    bitPos := start;
    var i: nat := 0;
    while i < bits
      invariant i <= bits && bitPos == start + i && (i > 0 ==> bitPos <= 8 * |data|)
      invariant bitPos <= 8 * |data| ==> c == FromLsb(ByteBits(data)[start..bitPos])
    {
      if bitPos / 8 >= |data| {
        return None, bitPos;
      }
      ByteBitAt(data, bitPos);
      var x := BitOf(data[bitPos / 8], bitPos % 8);
      FromLsbSnoc(ByteBits(data)[start..bitPos], x);
      assert ByteBits(data)[start..bitPos + 1] == ByteBits(data)[start..bitPos] + [x];
      if x != 0 {
        c := c + Pow2(i);
      }
      bitPos := bitPos + 1;
      i := i + 1;
    }
    if start > 8 * |data| {
      return None, bitPos;
    }
    return Some(c), bitPos;
  }

  lemma {:induction false} FromLsbBound(b: seq<Bit>)
    ensures FromLsb(b) < Pow2(|b|)
    decreases |b|
  {
    if b != [] {
      FromLsbBound(b[1..]);
    }
  }

  lemma LeftPart<T>(a: seq<T>, b: seq<T>, i: nat, j: nat)
    requires i <= j <= |a|
    ensures (a + b)[i..j] == a[i..j]
  {
  }

  /** The bits of byte `i`. */
  lemma {:induction false} ByteBitsAt(data: seq<Byte>, i: nat)
    requires i < |data|
    ensures ByteBits(data)[8 * i..8 * i + 8] == LsbBits(data[i], 8)
    decreases |data|
  {
    hide LsbBits;
    var last := |data| - 1;
    if i < last {
      ByteBitsAt(data[..last], i);
      LeftPart(ByteBits(data[..last]), LsbBits(data[last], 8), 8 * i, 8 * i + 8);
    }
  }

  // ----- bits ahead -----

  /** At `bitPos` the data goes on with `bits`. */
  ghost predicate Ahead(data: seq<Byte>, bitPos: nat, bits: seq<Bit>) {
    bitPos <= 8 * |data| && ByteBits(data)[bitPos..] == bits
  }

  lemma Advance(data: seq<Byte>, bitPos: nat, bits: seq<Bit>, n: nat, rest: seq<Bit>)
    requires Ahead(data, bitPos, bits + rest) && n == |bits|
    ensures bitPos + n <= 8 * |data| && Ahead(data, bitPos + n, rest)
    ensures ByteBits(data)[bitPos..bitPos + n] == bits
  {
    hide ByteBits;
    var b := ByteBits(data);
    assert |b[bitPos..]| == n + |rest|;
    DropDrop(b, bitPos, n);
    assert (bits + rest)[n..] == rest;
    assert b[bitPos..bitPos + n] == b[bitPos..][..n] == bits;
  }
}
