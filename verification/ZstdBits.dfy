/** The bit streams of zstd: written forwards, stored backwards with a sentinel bit on top, and
    read from the end (section 4.1 of RFC 8878). */
module ZstdBits {
  import opened Bytes
  import opened LsbFirst

  datatype Field = Field(value: nat, bits: nat)

  /** The bits of the fields in the order they were written, each most significant first. */
  function Logical(fields: seq<Field>): seq<Bit> {
    if fields == [] then []
    else
      var last := fields[|fields| - 1];
      Logical(fields[..|fields| - 1]) + ToBits(last.value, last.bits)
  }

  function Rev<T>(s: seq<T>): (r: seq<T>)
    ensures |r| == |s| && forall i :: 0 <= i < |s| ==> r[i] == s[|s| - 1 - i]
  {
    seq(|s|, i requires 0 <= i < |s| => s[|s| - 1 - i])
  }

  /** Bit `p` of the stored form: the logical bits from the top down, under a sentinel. */
  function StoredBit(l: seq<Bit>, p: nat): Bit {
    if p < |l| then l[|l| - 1 - p] else if p == |l| then 1 else 0
  }

  ghost predicate IsStream(data: seq<Byte>, l: seq<Bit>) {
    && 8 * (|data| - 1) <= |l| < 8 * |data|
    && forall p :: 0 <= p < 8 * |data| ==> ByteBits(data)[p] == StoredBit(l, p)
  }

  // ----- setting one bit -----

  lemma {:induction false} LsbSetBit(v: nat, n: nat, k: nat, x: Bit)
    requires v < Pow2(n) && k < n && LsbBits(v, n)[k] == 0
    ensures v + x * Pow2(k) < Pow2(n)
    ensures LsbBits(v + x * Pow2(k), n) == LsbBits(v, n)[k := x]
    decreases k
  {
    if k == 0 {
      assert (v + x) % 2 == x && (v + x) / 2 == v / 2;
      assert v + x * Pow2(0) == v + x;
    } else {
      LsbSetBit(v / 2, n - 1, k - 1, x);
      var y := x * Pow2(k - 1);
      MulAssoc(x, 2, Pow2(k - 1));
      assert x * Pow2(k) == 2 * y;
      assert (v + 2 * y) % 2 == v % 2 && (v + 2 * y) / 2 == v / 2 + y;
    }
  }

  lemma {:induction false} ByteBitsUpdate(data: seq<Byte>, i: nat, b: Byte)
    requires i < |data|
    ensures ByteBits(data)[8 * i..8 * i + 8] == LsbBits(data[i], 8)
    ensures ByteBits(data[i := b]) == ByteBits(data)[..8 * i] + LsbBits(b, 8) + ByteBits(data)[8 * i + 8..]
    decreases |data|
  {
    hide LsbBits;
    var last := |data| - 1;
    if i < last {
      ByteBitsUpdate(data[..last], i, b);
      assert data[i := b][..last] == data[..last][i := b];
    } else {
      assert data[i := b][..last] == data[..last];
    }
  }

  lemma SetBitAt(data: seq<Byte>, i: nat, k: nat, x: Bit)
    requires i < |data| && k < 8 && ByteBits(data)[8 * i + k] == 0
    ensures var b := data[i] + x * Pow2(k);
      b < 256 && ByteBits(data[i := b]) == ByteBits(data)[8 * i + k := x]
  {
    hide LsbBits, ByteBits, Pow2, BitOf;
    Pow2Eight();
    ByteBitsUpdate(data, i, data[i]);
    assert LsbBits(data[i], 8)[k] == ByteBits(data)[8 * i..8 * i + 8][k];
    LsbSetBit(data[i], 8, k, x);
    ByteBitsUpdate(data, i, data[i] + x * Pow2(k));
  }

  lemma SetBit(data: seq<Byte>, p: nat, x: Bit)
    requires p < 8 * |data| && ByteBits(data)[p] == 0
    ensures var b := data[p / 8] + x * Pow2(p % 8);
      b < 256 && ByteBits(data[p / 8 := b]) == ByteBits(data)[p := x]
  {
    hide ByteBits, Pow2;
    assert p == 8 * (p / 8) + p % 8;
    SetBitAt(data, p / 8, p % 8, x);
  }

  lemma {:induction false} ToBitsAt(v: nat, n: nat, i: nat)
    requires i < n
    ensures ToBits(v, n)[n - 1 - i] == BitOf(v, i)
    decreases n
  {
    if i > 0 {
      ToBitsAt(v / 2, n - 1, i - 1);
      DivDiv(v, i - 1);
    }
  }

  lemma {:induction false} LogicalAt(fields: seq<Field>, f: nat)
    requires f < |fields|
    ensures |Logical(fields[..f + 1])| == |Logical(fields[..f])| + fields[f].bits <= |Logical(fields)|
    ensures forall i :: 0 <= i < fields[f].bits ==>
              Logical(fields)[|Logical(fields[..f])| + i] == ToBits(fields[f].value, fields[f].bits)[i]
    decreases |fields|
  {
    hide ToBits;
    var last := |fields| - 1;
    assert fields[..f + 1][..f] == fields[..f];
    if f < last {
      LogicalAt(fields[..last], f);
      assert fields[..last][..f] == fields[..f] && fields[..last][..f + 1] == fields[..f + 1];
    } else {
      assert fields[..f + 1] == fields;
    }
  }

  // ----- the writer -----

  class BitWriter {
    var fields: seq<Field>
    var totalBits: nat

    ghost predicate Ok()
      reads this
    {
      totalBits == |Logical(fields)|
    }

    ghost function Written(): seq<Bit>
      reads this
    {
      Logical(fields)
    }

    constructor ()
      ensures Ok() && Written() == []
    {
      fields, totalBits := [], 0;
    }

    /** Keeps the low `n` bits of the value. */
    method WriteBits(value: nat, n: nat)
      requires Ok()
      modifies this
      ensures Ok() && Written() == old(Written()) + ToBits(value % Pow2(n), n)
    {
      if n == 0 {
        NoField(Written(), value);
        return;
      }
      var field := Field(value % Pow2(n), n);
      FieldAdded(fields, field);
      fields := fields + [field];
      totalBits := totalBits + n;
    }

    method Finish() returns (data: seq<Byte>)
      requires Ok()
      ensures IsStream(data, Written())
    {
      hide LsbBits, ByteBits, Pow2, Logical, StoredBit, ToBits;
      if totalBits == 0 {
        JustSentinel();
        return [1];
      }
      var buf := new Byte[(totalBits + 8) / 8](_ => 0);
      Zeros(buf[..]);
      SetOne(buf[..], totalBits, 1, Written());
      buf[totalBits / 8] := buf[totalBits / 8] + 1 * Pow2(totalBits % 8);
      var pos := totalBits;
      var f := 0;
      assert |Logical(fields[..0])| == 0 by { NoFields(); }
      while f < |fields|
        invariant f <= |fields| && fresh(buf) && pos == totalBits - |Logical(fields[..f])|
        invariant Drawn(buf[..], Written(), pos)
      {
        pos := Draw(buf, f, pos);
        f := f + 1;
      }
      assert fields[..f] == fields;
      data := buf[..];
    }

    /** The bits of one field, the most significant at the highest place. */
    method Draw(buf: array<Byte>, f: nat, pos0: nat) returns (pos: nat)
      requires Ok() && f < |fields| && pos0 == totalBits - |Logical(fields[..f])| && Drawn(buf[..], Written(), pos0)
      modifies buf
      ensures Drawn(buf[..], Written(), pos) && pos == totalBits - |Logical(fields[..f + 1])|
    {
      hide LsbBits, ByteBits, Pow2, Logical, StoredBit, ToBits, Drawn, BitOf;
      LogicalAt(fields, f);
      var value, n := fields[f].value, fields[f].bits;
      pos := pos0;
      var i := n;
      while i > 0
        invariant i <= n && pos == pos0 - (n - i)
        invariant Drawn(buf[..], Written(), pos)
      {
        i := i - 1;
        pos := pos - 1;
        var bit := BitOf(value, i);
        ToBitsAt(value, n, i);
        DrawOne(buf[..], Written(), pos, bit);
        buf[pos / 8] := buf[pos / 8] + bit * Pow2(pos % 8);
      }
    }
  }

  /** The bits from `pos` on are drawn, those below are still zero. */
  ghost predicate Drawn(data: seq<Byte>, l: seq<Bit>, pos: nat) {
    && 8 * (|data| - 1) <= |l| < 8 * |data|
    && pos <= |l|
    && forall p :: 0 <= p < 8 * |data| ==> ByteBits(data)[p] == if p < pos then 0 else StoredBit(l, p)
  }

  lemma DrawOne(data: seq<Byte>, l: seq<Bit>, pos: nat, x: Bit)
    requires Drawn(data, l, pos + 1) && x == l[|l| - 1 - pos]
    ensures pos / 8 < |data|
    ensures var b := data[pos / 8] + x * Pow2(pos % 8);
      b < 256 && Drawn(data[pos / 8 := b], l, pos)
  {
    hide ByteBits, Pow2;
    SetBit(data, pos, x);
  }

  lemma SetOne(data: seq<Byte>, p: nat, x: Bit, l: seq<Bit>)
    requires x == 1 && p == |l| && 8 * (|data| - 1) <= p < 8 * |data|
    requires forall q :: 0 <= q < 8 * |data| ==> ByteBits(data)[q] == 0
    ensures var b := data[p / 8] + x * Pow2(p % 8);
      b < 256 && Drawn(data[p / 8 := b], l, p)
  {
    hide ByteBits, Pow2;
    SetBit(data, p, x);
  }

  lemma {:induction false} Zeros(data: seq<Byte>)
    requires forall i :: 0 <= i < |data| ==> data[i] == 0
    ensures forall q :: 0 <= q < 8 * |data| ==> ByteBits(data)[q] == 0
    decreases |data|
  {
    if data != [] {
      Zeros(data[..|data| - 1]);
      forall k | 0 <= k < 8 ensures LsbBits(0, 8)[k] == 0 {
        LsbBitAt(0, 8, k);
      }
    }
  }

  lemma NoFields()
    ensures Logical([]) == []
  {
  }

  lemma NoField(l: seq<Bit>, value: nat)
    ensures l + ToBits(value % Pow2(0), 0) == l
  {
  }

  lemma FieldAdded(fields: seq<Field>, f: Field)
    ensures Logical(fields + [f]) == Logical(fields) + ToBits(f.value, f.bits)
  {
    assert (fields + [f])[..|fields|] == fields;
  }

  lemma JustSentinel()
    ensures IsStream([1], [])
  {
    hide ByteBits, BitOf, Pow2;
    assert Log2(1) == 0;
    forall p | 0 <= p < 8 ensures ByteBits([1])[p] == StoredBit([], p) {
      ByteBitAt([1], p);
      TopBitOf(1, p);
    }
  }

  // ----- the reader -----

  /** Opens a stream: the highest set bit of the last byte is the sentinel. */
  method Open(data: seq<Byte>) returns (reader: Option<BitReader>)
    ensures reader.None? <==> data == [] || data[|data| - 1] == 0
    ensures reader.Some? ==> fresh(reader.value) && reader.value.Ok() && reader.value.data == data
    ensures forall l :: IsStream(data, l) ==> reader.Some? && reader.value.Remaining() == l
  {
    hide ByteBits, IsStream;
    if data == [] {
      forall l | IsStream(data, l) ensures false { StreamNotEmpty(data, l); }
      return None;
    }
    var last := data[|data| - 1];
    forall l | IsStream(data, l) ensures last != 0 && |l| == 8 * (|data| - 1) + Log2(last) {
      SentinelAt(data, l);
    }
    if last == 0 {
      return None;
    }
    SentinelLow(last);
    var r := new BitReader(data, 8 * (|data| - 1) + Log2(last));
    forall l | IsStream(data, l) ensures r.Remaining() == l {
      StreamIs(data, l);
      assert r.Remaining() == l;
    }
    reader := Some(r);
  }

  lemma StreamNotEmpty(data: seq<Byte>, l: seq<Bit>)
    requires IsStream(data, l)
    ensures data != []
  {
  }

  lemma StreamIs(data: seq<Byte>, l: seq<Bit>)
    requires IsStream(data, l)
    ensures |l| < 8 * |data| && forall p :: 0 <= p < |l| ==> ByteBits(data)[p] == l[|l| - 1 - p]
  {
  }

  lemma SentinelLow(last: Byte)
    requires last > 0
    ensures Log2(last) < 8
  {
    Pow2Eight();
    Log2AtMost(last, 7);
  }

  lemma TopBitOf(v: nat, k: nat)
    ensures v > 0 && k == Log2(v) ==> BitOf(v, k) == 1
    ensures v == 0 || k > Log2(v) ==> BitOf(v, k) == 0
  {
    if v > 0 && k == Log2(v) {
      DivUnique(v, Pow2(k), 1, v - Pow2(k));
    } else if v == 0 {
      DivUnique(0, Pow2(k), 0, 0);
    } else if k > Log2(v) {
      Pow2Monotone(Log2(v) + 1, k);
      DivUnique(v, Pow2(k), 0, v);
    }
  }

  lemma SentinelAt(data: seq<Byte>, l: seq<Bit>)
    requires IsStream(data, l)
    ensures data != [] && data[|data| - 1] > 0 && |l| == 8 * (|data| - 1) + Log2(data[|data| - 1])
  {
    hide ByteBits, Pow2, Log2, BitOf;
    var at := 8 * (|data| - 1);
    var last := data[|data| - 1];
    ByteBitAt(data, |l|);
    assert BitOf(last, |l| - at) == 1;
    TopBitOf(last, |l| - at);
    SentinelLow(last);
    ByteBitAt(data, at + Log2(last));
    TopBitOf(last, Log2(last));
  }

  class BitReader {
    const data: seq<Byte>
    var bitPos: int

    ghost predicate Ok()
      reads this
    {
      0 <= bitPos <= 8 * |data|
    }

    /** The bits still to be read, next one first. */
    ghost function Remaining(): seq<Bit>
      reads this
      requires Ok()
    {
      Rev(ByteBits(data)[..bitPos])
    }

    constructor (data: seq<Byte>, bitPos: nat)
      requires bitPos <= 8 * |data|
      ensures this.data == data && this.bitPos == bitPos && Ok()
    {
      this.data, this.bitPos := data, bitPos;
    }

    method ReadBits(n: nat) returns (value: Option<nat>)
      requires Ok()
      modifies this`bitPos
      ensures value.Some? <==> n <= old(bitPos)
      ensures |old(Remaining())| == old(bitPos)
      ensures value.Some? ==> Ok() && value.value < Pow2(n) && old(Remaining()) == ToBits(value.value, n) + Remaining()
    {
      hide ByteBits, ToBits, Pow2;
      if n == 0 {
        NothingRead(Remaining());
        return Some(0);
      }
      bitPos := bitPos - n;
      if bitPos < 0 {
        return None;
      }
      var v := ExtractBits(data, bitPos, n);
      Taken(ByteBits(data), bitPos, n);
      return Some(v);
    }

    /** The next bits, left where they are. */
    method PeekBits(n: nat) returns (value: Option<nat>)
      requires Ok()
      ensures value.Some? <==> n <= |Remaining()|
      ensures value.Some? ==> value.value < Pow2(n) && Remaining()[..n] == ToBits(value.value, n)
    {
      hide ByteBits, ToBits, Pow2;
      if n == 0 {
        NothingRead(Remaining());
        return Some(0);
      }
      if bitPos < n {
        return None;
      }
      var v := ExtractBits(data, bitPos - n, n);
      Taken(ByteBits(data), bitPos - n, n);
      return Some(v);
    }

    method Consume(n: nat)
      requires Ok() && n <= |Remaining()|
      modifies this`bitPos
      ensures Ok() && Remaining() == old(Remaining())[n..]
    {
      hide ByteBits, ToBits, Pow2;
      Taken(ByteBits(data), bitPos - n, n);
      bitPos := bitPos - n;
    }

    function BitsLeft(): (n: nat)
      reads this
      requires Ok()
      ensures n == |Remaining()|
    {
      bitPos
    }

    /** The same; `on` says that a field with a known value is next. */
    method Take(n: nat, ghost on: bool, ghost value: nat, ghost rest: seq<Bit>) returns (got: Option<nat>)
      requires Ok() && (on ==> value < Pow2(n) && Remaining() == ToBits(value, n) + rest)
      modifies this`bitPos
      ensures got.Some? ==> Ok() && got.value < Pow2(n)
      ensures on ==> got == Some(value) && Ok() && Remaining() == rest
    {
      hide ByteBits, ToBits, Pow2;
      got := ReadBits(n);
      if on {
        SameField(got.value, value, n, Remaining(), rest);
      }
    }
  }

  lemma NothingRead(l: seq<Bit>)
    ensures Pow2(0) == 1 && ToBits(0, 0) + l == l
  {
  }

  lemma SameField(v: nat, w: nat, n: nat, a: seq<Bit>, b: seq<Bit>)
    requires v < Pow2(n) && w < Pow2(n) && ToBits(v, n) + a == ToBits(w, n) + b
    ensures v == w && a == b
  {
    BitsRoundTrip(v, n);
    BitsRoundTrip(w, n);
    assert ToBits(v, n) == (ToBits(v, n) + a)[..n] && ToBits(w, n) == (ToBits(w, n) + b)[..n];
    assert a == (ToBits(v, n) + a)[n..] && b == (ToBits(w, n) + b)[n..];
  }

  lemma {:induction false} ToBitsRev(b: seq<Bit>)
    ensures FromLsb(b) < Pow2(|b|) && ToBits(FromLsb(b), |b|) == Rev(b)
    decreases |b|
  {
    if b != [] {
      ToBitsRev(b[1..]);
      var h := FromLsb(b[1..]);
      assert FromLsb(b) / 2 == h && FromLsb(b) % 2 == b[0];
      assert Rev(b) == Rev(b[1..]) + [b[0]];
    }
  }

  lemma Taken(bits: seq<Bit>, pos: nat, n: nat)
    requires pos + n <= |bits|
    ensures FromLsb(bits[pos..pos + n]) < Pow2(n)
    ensures Rev(bits[..pos + n]) == ToBits(FromLsb(bits[pos..pos + n]), n) + Rev(bits[..pos])
  {
    ToBitsRev(bits[pos..pos + n]);
    assert Rev(bits[..pos + n]) == Rev(bits[pos..pos + n]) + Rev(bits[..pos]);
  }

  method ExtractBits(data: seq<Byte>, pos: nat, n: nat) returns (value: nat)
    requires pos + n <= 8 * |data|
    ensures value == FromLsb(ByteBits(data)[pos..pos + n])
  {
    hide ByteBits, Pow2, FromLsb, BitOf;
    value := 0;
    ghost var bits := ByteBits(data);
    assert FromLsb([]) == 0 by { NoLsb(); }
    assert bits[pos..pos] == [];
    var i := 0;
    while i < n
      invariant i <= n && value == FromLsb(bits[pos..pos + i])
    {
      var at := pos + i;
      ByteBitAt(data, at);
      var x := BitOf(data[at / 8], at % 8);
      FromLsbSnoc(bits[pos..at], x);
      assert bits[pos..at + 1] == bits[pos..at] + [x];
      value := value + x * Pow2(i);
      i := i + 1;
    }
  }
}
