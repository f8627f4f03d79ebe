/** FSE table descriptions (section 4.1.1 of RFC 8878): the probabilities of a distribution in
    variable-length fields, with runs of zeros in groups of two bits. */
module ZstdDescription {
  import opened Bytes
  import opened LsbFirst
  import opened ZstdFse

  ghost predicate Probabilities(p: seq<int>) {
    forall k :: 0 <= k < |p| ==> p[k] >= -1
  }

  /** The number written for a probability. */
  function CountOf(p: int): nat
    requires p >= -1
  {
    p + 1
  }

  /** 2^n for the largest n with 2^n <= remaining. */
  function Threshold(remaining: nat): nat
    requires remaining > 0
  {
    Pow2(Log2(remaining))
  }

  /** How many of the 2 * threshold field values are not needed: so many counts are one bit shorter. */
  function Spare(remaining: nat): (s: nat)
    requires remaining > 0
    ensures s < Threshold(remaining)
  {
    2 * Threshold(remaining) - 1 - remaining
  }

  datatype Field = Field(value: nat, bits: nat)

  function FieldOf(count: nat, remaining: nat): Field
    requires remaining > 0
  {
    if count < Spare(remaining) then Field(count, Log2(remaining))
    else if count < Threshold(remaining) then Field(count, Log2(remaining) + 1)
    else Field(count + Spare(remaining), Log2(remaining) + 1)
  }

  /** Reading a field from the bits ahead, and how many bits it takes. */
  function CountFrom(raw: nat, remaining: nat): (r: (nat, nat))
    requires remaining > 0
    ensures r.0 <= remaining
  {
    var n := Log2(remaining);
    var low := raw % Pow2(n);
    if low < Spare(remaining) then (low, n)
    else
      var high := raw % Pow2(n + 1);
      if high >= Threshold(remaining) then (high - Spare(remaining), n + 1)
      else (high, n + 1)
  }

  lemma ModHalf(raw: nat, p: nat)
    requires p > 0
    ensures raw % (2 * p) == raw % p || raw % (2 * p) == raw % p + p
  {
    Division(raw, 2 * p);
    var q, r := Quot(raw, 2 * p), raw % (2 * p);
    MulAssoc(q, 2, p);
    if r < p {
      DivUnique(raw, p, 2 * q, r);
    } else {
      MulAdd(2 * q, 1, p);
      DivUnique(raw, p, 2 * q + 1, r - p);
    }
  }

  /** A field is read back from any bits that start with it; it fits its bits. */
  lemma FieldRoundTrip(count: nat, remaining: nat, raw: nat)
    requires 0 < remaining && count <= remaining
    ensures var f := FieldOf(count, remaining);
      && f.value < Pow2(f.bits)
      && (raw % Pow2(f.bits) == f.value ==> CountFrom(raw, remaining) == (count, f.bits))
  {
    ModHalf(raw, Pow2(Log2(remaining)));
  }

  /** A run of `z` further zeros: threes while there are three, then the rest. */
  function RunBits(z: nat): seq<Bit> {
    if z >= 3 then LsbBits(3, 2) + RunBits(z - 3) else LsbBits(z, 2)
  }

  function LeadingZeros(p: seq<int>): (z: nat)
    ensures z <= |p| && (forall k :: 0 <= k < z ==> p[k] == 0) && (z < |p| ==> p[z] != 0)
  {
    if p == [] || p[0] != 0 then 0 else 1 + LeadingZeros(p[1..])
  }

  function After(p: int, remaining: nat): nat {
    if Weight(p) <= remaining then remaining - Weight(p) else 0
  }

  /** The bits for the probabilities from here on, with `remaining - 1` cells left. */
  function Describe(p: seq<int>, remaining: nat): seq<Bit>
    requires Probabilities(p)
    decreases |p|
  {
    if p == [] || remaining <= 1 then []
    else
      var f := FieldOf(CountOf(p[0]), remaining);
      var z := if p[0] == 0 then LeadingZeros(p[1..]) else 0;
      LsbBits(f.value, f.bits) + ((if p[0] == 0 then RunBits(z) else [])
                                  + Describe(p[1 + z..], After(p[0], remaining)))
  }

  ghost predicate IsDescription(data: seq<Byte>, p: seq<int>, al: nat) {
    && 5 <= al <= 15 && Probabilities(p)
    && exists pad: seq<Bit> :: |pad| < 8 && ByteBits(data) == LsbBits(al - 5, 4) + Describe(p, Pow2(al) + 1) + pad
  }

  function DescriptionSize(p: seq<int>, al: nat): nat
    requires Probabilities(p)
  {
    (4 + |Describe(p, Pow2(al) + 1)| + 7) / 8
  }

  lemma DescriptionLength(data: seq<Byte>, p: seq<int>, al: nat)
    requires IsDescription(data, p, al)
    ensures |data| == DescriptionSize(p, al)
  {
    hide Describe, Pow2;
    var pad: seq<Bit> :| |pad| < 8 && ByteBits(data) == LsbBits(al - 5, 4) + Describe(p, Pow2(al) + 1) + pad;
    assert |ByteBits(data)| == 4 + |Describe(p, Pow2(al) + 1)| + |pad|;
  }

  // ----- threshold and field width, as both sides keep them -----

  ghost predicate Tuned(remaining: nat, threshold: nat, nbBits: nat) {
    if remaining == 0 then threshold == 0 && nbBits == 0
    else nbBits == Log2(remaining) + 1 && threshold == Threshold(remaining)
  }

  method Narrow(remaining: nat, threshold0: nat, nbBits0: nat) returns (threshold: nat, nbBits: nat)
    requires nbBits0 > 0 && threshold0 == Pow2(nbBits0 - 1) && remaining < 2 * threshold0
    ensures Tuned(remaining, threshold, nbBits)
  {
    threshold, nbBits := threshold0, nbBits0;
    while remaining < threshold
      invariant threshold == (if nbBits == 0 then 0 else Pow2(nbBits - 1))
      invariant if nbBits == 0 then remaining == 0 else remaining < 2 * threshold
      decreases threshold
    {
      nbBits := nbBits - 1;
      threshold := threshold / 2;
    }
    if remaining > 0 {
      Log2Is(remaining, nbBits - 1);
    }
  }

  lemma TunedAtStart(al: nat)
    requires al > 0
    ensures Tuned(Pow2(al) + 1, Pow2(al), al + 1)
  {
    hide Log2, Pow2;
    PowerNext(al);
    Log2Is(Pow2(al) + 1, al);
  }

  lemma PowerNext(al: nat)
    requires al > 0
    ensures Pow2(al + 1) == 2 * Pow2(al) && Pow2(al) >= 2
  {
    assert Pow2(al) == 2 * Pow2(al - 1);
  }

  // ----- writing -----

  /** What the first field and the zeros after it take from the description. */
  lemma DescribeStep(p: seq<int>, i: nat, remaining: nat, written: seq<Bit>)
    requires Probabilities(p) && i < |p| && remaining > 1
    ensures var f := FieldOf(CountOf(p[i]), remaining);
      var z := if p[i] == 0 then LeadingZeros(p[i + 1..]) else 0;
      var run := if p[i] == 0 then RunBits(z) else [];
      written + Describe(p[i..], remaining)
      == written + LsbBits(f.value, f.bits) + run + Describe(p[i + 1 + z..], After(p[i], remaining))
  {
    hide FieldOf, RunBits, LsbBits;
    var f := FieldOf(CountOf(p[i]), remaining);
    var z := if p[i] == 0 then LeadingZeros(p[i + 1..]) else 0;
    var run := if p[i] == 0 then RunBits(z) else [];
    DescribeCons(p, i, remaining);
    Assoc4(written, LsbBits(f.value, f.bits), run, Describe(p[i + 1 + z..], After(p[i], remaining)));
  }

  lemma DescribeCons(p: seq<int>, i: nat, remaining: nat)
    requires Probabilities(p) && i < |p| && remaining > 1
    ensures var f := FieldOf(CountOf(p[i]), remaining);
      var z := if p[i] == 0 then LeadingZeros(p[i + 1..]) else 0;
      var run := if p[i] == 0 then RunBits(z) else [];
      Describe(p[i..], remaining) == LsbBits(f.value, f.bits) + (run + Describe(p[i + 1 + z..], After(p[i], remaining)))
  {
    hide FieldOf, RunBits, LsbBits, Threshold, Spare, Log2, Pow2, BitOf;
    assert p[i..][1..] == p[i + 1..];
    assert p[i..][0] == p[i];
    var z := if p[i] == 0 then LeadingZeros(p[i + 1..]) else 0;
    assert p[i..][1 + z..] == p[i + 1 + z..];
  }

  lemma Assoc4<T>(a: seq<T>, b: seq<T>, c: seq<T>, d: seq<T>)
    ensures a + (b + (c + d)) == a + b + c + d
  {
  }

  lemma {:induction false} TotalPrefix(p: seq<int>, i: nat)
    requires i < |p|
    ensures Total(p[..i + 1]) == Total(p[..i]) + Weight(p[i]) && Total(p[..i + 1]) <= Total(p)
    decreases |p|
  {
    assert p[..i + 1][..i] == p[..i];
    if i < |p| - 1 {
      TotalPrefix(p[..|p| - 1], i);
      assert p[..|p| - 1][..i + 1] == p[..i + 1] && p[..|p| - 1][..i] == p[..i];
    } else {
      assert p[..i + 1] == p;
    }
  }

  lemma {:induction false} TotalZeros(p: seq<int>, i: nat, z: nat)
    requires i + z <= |p| && forall k :: i <= k < i + z ==> p[k] == 0
    ensures Total(p[..i + z]) == Total(p[..i])
    decreases z
  {
    if z > 0 {
      TotalZeros(p, i, z - 1);
      assert p[..i + z][..i + z - 1] == p[..i + z - 1];
    }
  }

  /** When no cells are left, the other probabilities are zero and nothing more is written. */
  lemma {:induction false} OnlyZeros(p: seq<int>, i: nat, k: nat)
    requires i <= k < |p| && Total(p[..i]) == Total(p) && Probabilities(p)
    ensures p[k] == 0
    decreases k - i
  {
    TotalPrefix(p, i);
    if i < k {
      OnlyZeros(p, i + 1, k);
    }
  }

  /** The run of zeros after a zero. */
  method WriteRun(packer: Packer, z: nat)
    requires packer.Ok()
    modifies packer
    ensures packer.Ok() && packer.Written() == old(packer.Written()) + RunBits(z)
  {
    hide LsbBits;
    var repeats := z;
    assert Pow2(2) == 4;
    while true
      invariant packer.Ok() && packer.Written() + RunBits(repeats) == old(packer.Written()) + RunBits(z)
      decreases repeats
    {
      var chunk := if repeats < 3 then repeats else 3;
      if repeats >= 3 {
        Assoc(packer.Written(), LsbBits(3, 2), RunBits(repeats - 3));
      }
      packer.EmitCode(chunk, 2);
      if chunk < 3 {
        break;
      }
      repeats := repeats - 3;
    }
  }

  /** Writes the description, or fails if the distribution asks for more cells than the table has. */
  method WriteDescription(probs: seq<int>, al: nat) returns (output: Option<seq<Byte>>)
    requires 5 <= al <= 15 && Probabilities(probs)
    ensures Total(probs) <= Pow2(al) ==> output.Some? && IsDescription(output.value, probs, al)
  {
    hide LsbBits, Pow2, Total, Describe, LeadingZeros, FieldOf, RunBits, Threshold, Spare, Tuned, Log2, ByteBits;
    var tableSize := Pow2(al);
    var packer := new Packer();
    SmallLog(al);
    packer.EmitCode(al - 5, 4);
    var remaining: nat, threshold: nat, nbBits: nat := tableSize + 1, tableSize, al + 1;
    TunedAtStart(al);
    ghost var goal := LsbBits(al - 5, 4) + Describe(probs, Pow2(al) + 1);
    AtStart(probs, al, packer.Written());
    var i: nat := 0;
    while i < |probs|
      invariant i <= |probs| && packer.Ok()
      invariant remaining + Total(probs[..i]) == tableSize + 1 && Tuned(remaining, threshold, nbBits)
      invariant packer.Written() + Describe(probs[i..], remaining) == goal
    {
      if remaining <= 1 {
        break;
      }
      DescribeStep(probs, i, remaining, packer.Written());
      TotalPrefix(probs, i);
      TunedIs(remaining, threshold, nbBits);
      var count := CountOf(probs[i]);
      if Weight(probs[i]) >= remaining {
        // The original runs below zero here, or spoils the field.
        return None;
      }
      FieldRoundTrip(count, remaining, 0);
      WriteField(packer, count, remaining, threshold, nbBits);
      remaining := remaining - Weight(probs[i]);
      threshold, nbBits := Narrow(remaining, threshold, nbBits);
      if probs[i] == 0 {
        var z := CountZeros(probs, i + 1);
        WriteRun(packer, z);
        TotalZeros(probs, i + 1, z);
        i := i + 1 + z;
      } else {
        assert packer.Written() + [] == packer.Written();
        i := i + 1;
      }
    }
    AllDescribed(probs, i, remaining, al);
    ghost var done := packer.Written();
    assert done + [] == done;
    packer.Flush();
    output := Some(packer.output);
  }

  lemma SmallLog(al: nat)
    requires 5 <= al <= 15
    ensures al - 5 < Pow2(4)
  {
    assert Pow2(4) == 16;
  }

  lemma AtStart(probs: seq<int>, al: nat, written: seq<Bit>)
    requires Probabilities(probs) && al >= 5 && written == [] + LsbBits(al - 5, 4)
    ensures written + Describe(probs[0..], Pow2(al) + 1) == LsbBits(al - 5, 4) + Describe(probs, Pow2(al) + 1)
    ensures Total(probs[..0]) == 0
  {
    assert probs[0..] == probs;
  }

  lemma TunedIs(remaining: nat, threshold: nat, nbBits: nat)
    requires Tuned(remaining, threshold, nbBits) && remaining > 0
    ensures nbBits == Log2(remaining) + 1 && threshold == Threshold(remaining) == Pow2(nbBits - 1)
    ensures remaining < 2 * threshold
    ensures 2 * threshold - 1 - remaining == Spare(remaining)
  {
  }

  method WriteField(packer: Packer, count: nat, remaining: nat, threshold: nat, nbBits: nat)
    requires packer.Ok() && remaining > 0 && Tuned(remaining, threshold, nbBits) && count <= remaining
    modifies packer
    ensures packer.Ok()
    ensures var f := FieldOf(count, remaining); packer.Written() == old(packer.Written()) + LsbBits(f.value, f.bits)
  {
    hide LsbBits, Pow2, Tuned;
    TunedIs(remaining, threshold, nbBits);
    FieldRoundTrip(count, remaining, 0);
    var maxVal := 2 * threshold - 1 - remaining;
    if count < maxVal {
      packer.EmitCode(count, nbBits - 1);
    } else {
      var adjusted := if count < threshold then count else count + maxVal;
      packer.EmitCode(adjusted, nbBits);
    }
  }

  method CountZeros(probs: seq<int>, from: nat) returns (z: nat)
    requires from <= |probs|
    ensures z == LeadingZeros(probs[from..])
  {
    z := 0;
    while from + z < |probs| && probs[from + z] == 0
      invariant from + z <= |probs| && LeadingZeros(probs[from..]) == z + LeadingZeros(probs[from + z..])
    {
      assert probs[from + z..][1..] == probs[from + z + 1..];
      z := z + 1;
    }
  }

  lemma AllDescribed(probs: seq<int>, i: nat, remaining: nat, al: nat)
    requires Probabilities(probs) && i <= |probs| && (i == |probs| || remaining <= 1)
    ensures Describe(probs[i..], remaining) == []
  {
  }

  // ----- looking at the bits ahead -----

  /** Byte `k`, or zero beyond the end. */
  function ByteOr0(data: seq<Byte>, k: nat): Byte {
    if k < |data| then data[k] else 0
  }

  function Window(a: Byte, b: Byte, c: Byte): nat {
    a as int + 256 * (b as int + 256 * c as int)
  }

  /** The bits from `bitPos` on, out of three bytes. */
  function RawAt(data: seq<Byte>, bitPos: nat): nat {
    var k := bitPos / 8;
    Quot(Window(ByteOr0(data, k), ByteOr0(data, k + 1), ByteOr0(data, k + 2)), Pow2(bitPos % 8))
  }

  lemma DivPlus(a: nat, q: nat, t: nat)
    requires t > 0
    ensures Quot(a + q * t, t) == Quot(a, t) + q
  {
    Division(a, t);
    MulAdd(Quot(a, t), q, t);
    DivUnique(a + q * t, t, Quot(a, t) + q, a % t);
  }

  lemma SplitByte(b: Byte, idx: nat)
    requires idx < 8
    ensures 256 * b as int == (b as int * Pow2(8 - idx)) * Pow2(idx)
  {
    Pow2Eight();
    Pow2Add(8 - idx, idx);
    MulAssoc(b as int, Pow2(8 - idx), Pow2(idx));
  }

  /** The window shifted down, byte by byte. */
  lemma WindowParts(a: Byte, b: Byte, c: Byte, idx: nat)
    requires idx < 8
    ensures Quot(Window(a, b, c), Pow2(idx))
         == Quot(a as int, Pow2(idx)) + b as int * Pow2(8 - idx) + c as int * (256 * Pow2(8 - idx))
  {
    hide Pow2;
    var t, u := Pow2(idx), Pow2(8 - idx);
    SplitByte(b, idx);
    SplitByte(c, idx);
    var q := b as int * u + c as int * (256 * u);
    MulAssoc(c as int, 256, u);
    assert c as int * (256 * u) == 256 * (c as int * u);
    MulAdd(b as int * u, c as int * (256 * u), t);
    MulAssoc(256, c as int * u, t);
    assert Window(a, b, c) == a as int + q * t;
    DivPlus(a as int, q, t);
  }

  lemma {:induction false} DivPow(v: nat, a: nat, b: nat)
    ensures Quot(Quot(v, Pow2(a)), Pow2(b)) == Quot(v, Pow2(a + b))
    decreases a
  {
    if a > 0 {
      DivDiv(v, a - 1);
      DivPow(v / 2, a - 1, b);
      DivDiv(v, a - 1 + b);
      DivDiv(v, a + b - 1);
    }
  }

  /** A bit of the window is the bit of the byte it comes from. */
  lemma WindowBit(a: Byte, b: Byte, c: Byte, j: nat)
    requires j < 24
    ensures BitOf(Window(a, b, c), j)
         == if j < 8 then BitOf(a, j) else if j < 16 then BitOf(b, j - 8) else BitOf(c, j - 16)
  {
    hide LsbBits, Pow2, BitOf;
    Pow2Eight();
    LsbBitAt(Window(a, b, c), 24, j);
    LsbSplit(a, 8, b as int + 256 * c as int, 16);
    LsbSplit(b, 8, c, 8);
    assert LsbBits(Window(a, b, c), 24) == LsbBits(a, 8) + (LsbBits(b, 8) + LsbBits(c, 8));
    if j < 8 {
      LsbBitAt(a, 8, j);
    } else if j < 16 {
      LsbBitAt(b, 8, j - 8);
    } else {
      LsbBitAt(c, 8, j - 16);
    }
  }

  lemma ShiftedBit(v: nat, a: nat, k: nat)
    ensures BitOf(Quot(v, Pow2(a)), k) == BitOf(v, a + k)
  {
    DivPow(v, a, k);
  }

  lemma RawBit(data: seq<Byte>, bitPos: nat, k: nat)
    requires bitPos + k < 8 * |data| && k < 17
    ensures BitOf(RawAt(data, bitPos), k) == ByteBits(data)[bitPos + k]
  {
    hide ByteBits, Pow2, Window, BitOf;
    var i := bitPos / 8;
    ShiftedBit(Window(ByteOr0(data, i), ByteOr0(data, i + 1), ByteOr0(data, i + 2)), bitPos % 8, k);
    WindowBit(ByteOr0(data, i), ByteOr0(data, i + 1), ByteOr0(data, i + 2), bitPos % 8 + k);
    InByte(bitPos, k);
    ByteBitAt(data, bitPos + k);
  }

  lemma InByte(bitPos: nat, k: nat)
    ensures var i, j := bitPos / 8, bitPos % 8 + k;
      (bitPos + k) / 8 == i + j / 8 && (bitPos + k) % 8 == j % 8
  {
  }

  lemma ModNext(v: nat, n: nat)
    ensures v % Pow2(n + 1) == v % Pow2(n) + BitOf(v, n) * Pow2(n)
  {
    var p := Pow2(n);
    var q, r := Quot(v, p), v % p;
    Division(v, p);
    MulAssoc(q / 2, 2, p);
    if q % 2 == 0 {
      DivUnique(v, 2 * p, q / 2, r);
    } else {
      MulAdd(2 * (q / 2), 1, p);
      DivUnique(v, 2 * p, q / 2, r + p);
    }
  }

  /** The low bits of a number, from its bits. */
  lemma {:induction false} FromLsbMod(v: nat, b: seq<Bit>)
    requires forall k :: 0 <= k < |b| ==> b[k] == BitOf(v, k)
    ensures FromLsb(b) == v % Pow2(|b|)
    decreases |b|
  {
    if b != [] {
      var n := |b| - 1;
      FromLsbMod(v, b[..n]);
      FromLsbSnoc(b[..n], b[n]);
      assert b == b[..n] + [b[n]];
      ModNext(v, n);
    }
  }

  /** A field that lies ahead is found in the low bits of the window. */
  lemma FieldAhead(data: seq<Byte>, bitPos: nat, value: nat, n: nat, rest: seq<Bit>)
    requires bitPos <= 8 * |data| && n <= 17 && value < Pow2(n)
    requires ByteBits(data)[bitPos..] == LsbBits(value, n) + rest
    ensures bitPos + n <= 8 * |data| && RawAt(data, bitPos) % Pow2(n) == value
    ensures ByteBits(data)[bitPos + n..] == rest
  {
    hide RawAt, Pow2, BitOf;
    var bits := ByteBits(data);
    var b := LsbBits(value, n);
    assert |bits[bitPos..]| == n + |rest|;
    forall k | 0 <= k < n ensures b[k] == BitOf(RawAt(data, bitPos), k) {
      RawBit(data, bitPos, k);
      assert bits[bitPos..][k] == (b + rest)[k];
    }
    FromLsbMod(RawAt(data, bitPos), b);
    LsbRoundTrip(value, n);
    DropDrop(bits, bitPos, n);
    assert (b + rest)[n..] == rest;
  }

  // ----- reading -----

  /** Up to 24 bits, byte by byte. */
  method PeekRaw(data: seq<Byte>, bitPos: nat) returns (raw: nat)
    requires bitPos / 8 < |data|
    ensures raw == RawAt(data, bitPos)
  {
    hide Pow2;
    var byteIdx, bitIdx := bitPos / 8, bitPos % 8;
    WindowParts(data[byteIdx], ByteOr0(data, byteIdx + 1), ByteOr0(data, byteIdx + 2), bitIdx);
    raw := Quot(data[byteIdx] as int, Pow2(bitIdx));
    if byteIdx + 1 < |data| {
      raw := raw + data[byteIdx + 1] as int * Pow2(8 - bitIdx);
      if byteIdx + 2 < |data| {
        raw := raw + data[byteIdx + 2] as int * (256 * Pow2(8 - bitIdx));
      }
    }
  }

  lemma TwoBits(data: seq<Byte>, bitPos: nat)
    requires bitPos / 8 < |data|
    ensures var k, idx := bitPos / 8, bitPos % 8;
      RawAt(data, bitPos) % 4
      == (if idx >= 7 && k + 1 < |data| then Quot(data[k] as int, Pow2(idx)) + data[k + 1] as int * Pow2(8 - idx)
          else Quot(data[k] as int, Pow2(idx))) % 4
  {
    hide Pow2, Quot;
    var k, idx := bitPos / 8, bitPos % 8;
    var a, b, c := data[k], ByteOr0(data, k + 1), ByteOr0(data, k + 2);
    WindowParts(a, b, c, idx);
    var u, q := Pow2(8 - idx), Quot(a as int, Pow2(idx));
    var x, y := b as int * u, c as int * (256 * u);
    MultipleOf4(c as int, 256 * u, 64 * u);
    LowTwo(q + x, c as int * (64 * u));
    assert RawAt(data, bitPos) == q + x + y;
    if idx < 7 {
      FourDivides(8 - idx);
      MultipleOf4(b as int, u, Quot(u, 4));
      LowTwo(q, b as int * Quot(u, 4));
    } else if k + 1 >= |data| {
      assert b == 0;
      assert x == 0;
    }
  }

  lemma LowTwo(a: nat, m: nat)
    ensures (a + 4 * m) % 4 == a % 4
  {
  }

  lemma FourDivides(n: nat)
    requires n >= 2
    ensures Pow2(n) == 4 * Quot(Pow2(n), 4)
  {
    assert Pow2(n) == 2 * Pow2(n - 1) == 4 * Pow2(n - 2);
  }

  lemma MultipleOf4(b: nat, u: nat, q: nat)
    requires u == 4 * q
    ensures b * u == 4 * (b * q)
  {
  }

  /** A run of zeros: groups of two bits up to one that is not 3. */
  method ReadRun(data: seq<Byte>, start: nat, ghost on: bool, ghost z: nat, ghost rest: seq<Bit>)
      returns (bitPos: nat, zeros: nat)
    requires on ==> start <= 8 * |data| && ByteBits(data)[start..] == RunBits(z) + rest
    ensures on ==> zeros == z && bitPos <= 8 * |data| && ByteBits(data)[bitPos..] == rest
  {
    hide RunBits, ByteBits, Pow2, LsbBits, RawAt;
    bitPos, zeros := start, 0;
    ghost var left := z;
    while true
      invariant on ==> zeros + left == z && bitPos <= 8 * |data|
      invariant on ==> ByteBits(data)[bitPos..] == RunBits(left) + rest
      decreases 8 * |data| - bitPos
    {
      if on {
        RunAhead(data, bitPos, left, rest);
      }
      var byteIdx, bitIdx := bitPos / 8, bitPos % 8;
      if byteIdx >= |data| {
        break;
      }
      TwoBits(data, bitPos);
      var raw := Quot(data[byteIdx] as int, Pow2(bitIdx));
      if bitIdx >= 7 && byteIdx + 1 < |data| {
        raw := raw + data[byteIdx + 1] as int * Pow2(8 - bitIdx);
      }
      var repeatBits := raw % 4;
      bitPos := bitPos + 2;
      zeros := zeros + repeatBits;
      if repeatBits < 3 {
        break;
      }
      if on {
        left := left - 3;
      }
    }
  }

  lemma RunAhead(data: seq<Byte>, bitPos: nat, z: nat, rest: seq<Bit>)
    requires bitPos <= 8 * |data| && ByteBits(data)[bitPos..] == RunBits(z) + rest
    ensures bitPos / 8 < |data| && bitPos + 2 <= 8 * |data|
    ensures RawAt(data, bitPos) % 4 == if z < 3 then z else 3
    ensures ByteBits(data)[bitPos + 2..] == if z < 3 then rest else RunBits(z - 3) + rest
  {
    hide LsbBits, ByteBits, RawAt;
    assert Pow2(2) == 4;
    if z < 3 {
      FieldAhead(data, bitPos, z, 2, rest);
    } else {
      Assoc(LsbBits(3, 2), RunBits(z - 3), rest);
      FieldAhead(data, bitPos, 3, 2, RunBits(z - 3) + rest);
    }
  }

  /** What a reader that has read the first `i` probabilities has before it. */
  ghost predicate Ahead(data: seq<Byte>, p: seq<int>, al: nat, i: nat, remaining: nat, bitPos: nat, tail: seq<Bit>) {
    && 5 <= al <= 15 && Probabilities(p) && Total(p) <= Pow2(al) && i <= |p|
    && bitPos <= 8 * |data| && remaining + Total(p[..i]) == Pow2(al) + 1
    && ByteBits(data)[bitPos..] == Describe(p[i..], remaining) + tail
  }

  /** The next field, and what is left after it. */
  lemma NextField(data: seq<Byte>, p: seq<int>, al: nat, i: nat, remaining: nat, bitPos: nat, tail: seq<Bit>)
    requires Ahead(data, p, al, i, remaining, bitPos, tail) && remaining > 1 && i < |p|
    ensures bitPos / 8 < |data| && Weight(p[i]) < remaining
    ensures var (count, bits) := CountFrom(RawAt(data, bitPos), remaining);
      && count == CountOf(p[i]) && bitPos + bits <= 8 * |data|
      && var z := if p[i] == 0 then LeadingZeros(p[i + 1..]) else 0;
         var run := if p[i] == 0 then RunBits(z) else [];
         && i + 1 + z <= |p| && remaining - Weight(p[i]) + Total(p[..i + 1 + z]) == Pow2(al) + 1
         && ByteBits(data)[bitPos + bits..] == run + (Describe(p[i + 1 + z..], remaining - Weight(p[i])) + tail)
  {
    hide Describe, LsbBits, ByteBits, RawAt, RunBits, FieldOf, CountFrom, LeadingZeros, Threshold, Spare, Log2, Pow2;
    hide Total, BitOf;
    TotalPrefix(p, i);
    var f := FieldOf(CountOf(p[i]), remaining);
    var z := if p[i] == 0 then LeadingZeros(p[i + 1..]) else 0;
    var run := if p[i] == 0 then RunBits(z) else [];
    var rest := Describe(p[i + 1 + z..], remaining - Weight(p[i]));
    DescribeCons(p, i, remaining);
    FieldRoundTrip(CountOf(p[i]), remaining, RawAt(data, bitPos));
    FieldWidth(CountOf(p[i]), remaining, al);
    Assoc(LsbBits(f.value, f.bits), run + rest, tail);
    Assoc(run, rest, tail);
    FieldAhead(data, bitPos, f.value, f.bits, run + (rest + tail));
    if p[i] == 0 {
      TotalZeros(p, i + 1, z);
    }
  }

  lemma TotalWhole(p: seq<int>, i: nat)
    requires i <= |p|
    ensures i == |p| ==> Total(p[..i]) == Total(p)
  {
    assert p[..|p|] == p;
  }

  lemma FieldWidth(count: nat, remaining: nat, al: nat)
    requires 1 < remaining <= Pow2(al) + 1 && 5 <= al <= 15
    ensures 1 <= FieldOf(count, remaining).bits <= 17
  {
    hide Log2;
    PowerNext(al);
    assert Pow2(1) == 2;
    Log2AtMost(remaining, al);
    if Log2(remaining) == 0 {
      assert false;
    }
  }

  /** The first `len` bytes of the data describe `p`. */
  ghost predicate Describes(data: seq<Byte>, p: seq<int>, al: nat, len: nat) {
    len <= |data| && Total(p) <= Pow2(al) && IsDescription(data[..len], p, al)
  }

  lemma {:induction false} ByteBitsConcat(a: seq<Byte>, b: seq<Byte>)
    ensures ByteBits(a + b) == ByteBits(a) + ByteBits(b)
    decreases |b|
  {
    hide LsbBits;
    if b == [] {
      assert a + b == a;
    } else {
      var last := |b| - 1;
      ByteBitsConcat(a, b[..last]);
      assert (a + b)[..|a + b| - 1] == a + b[..last];
      Assoc(ByteBits(a), ByteBits(b[..last]), LsbBits(b[last], 8));
    }
  }

  /** Where the description ends. */
  ghost predicate TailFrom(data: seq<Byte>, len: nat, tail: seq<Bit>) {
    len <= |data| && 8 * (|data| - len) <= |tail| < 8 * (|data| - len) + 8
  }

  lemma Opening(data: seq<Byte>, p: seq<int>, al: nat, len: nat) returns (tail: seq<Bit>)
    requires Describes(data, p, al, len)
    ensures data != [] && data[0] % 16 + 5 == al
    ensures TailFrom(data, len, tail) && Ahead(data, p, al, 0, Pow2(al) + 1, 4, tail)
  {
    hide LsbBits, Describe, ByteBits, Pow2;
    var d := Describe(p, Pow2(al) + 1);
    var pad: seq<Bit> :| |pad| < 8 && ByteBits(data[..len]) == LsbBits(al - 5, 4) + d + pad;
    tail := pad + ByteBits(data[len..]);
    ByteBitsConcat(data[..len], data[len..]);
    assert data == data[..len] + data[len..];
    Assoc(LsbBits(al - 5, 4) + d, pad, ByteBits(data[len..]));
    Assoc(LsbBits(al - 5, 4), d, tail);
    assert ByteBits(data) == LsbBits(al - 5, 4) + (d + tail);
    assert ByteBits(data)[0..] == ByteBits(data);
    SmallLog(al);
    FieldAhead(data, 0, al - 5, 4, d + tail);
    LowNibble(data);
    NoneRead(p, Pow2(al) + 1);
  }

  lemma NoneRead(p: seq<int>, remaining: nat)
    requires Probabilities(p)
    ensures Total(p[..0]) == 0 && Describe(p[0..], remaining) == Describe(p, remaining)
  {
    assert p[0..] == p;
  }

  lemma LowNibble(data: seq<Byte>)
    requires data != []
    ensures RawAt(data, 0) % Pow2(4) == data[0] % 16
  {
    assert Pow2(4) == 16 && Pow2(0) == 1;
    var b, c := ByteOr0(data, 1), ByteOr0(data, 2);
    var m := 16 * (b as int + 256 * c as int);
    assert RawAt(data, 0) == data[0] as int + 16 * m;
  }

  /** What the description says, and where it ends. */
  lemma Ending(data: seq<Byte>, p: seq<int>, al: nat, i: nat, remaining: nat, bitPos: nat, tail: seq<Bit>, len: nat)
    requires Ahead(data, p, al, i, remaining, bitPos, tail) && TailFrom(data, len, tail)
    requires i == |p| || remaining <= 1
    ensures (bitPos + 7) / 8 == len && forall k :: i <= k < |p| ==> p[k] == 0
  {
    AllDescribed(p, i, remaining, al);
    assert |ByteBits(data)[bitPos..]| == |tail|;
    TotalWhole(p, i);
    if i < |p| {
      TotalPrefix(p, i);
      forall k | i <= k < |p| ensures p[k] == 0 {
        PrefixAtMost(p, i);
        OnlyZeros(p, i, k);
      }
    }
  }

  lemma {:induction false} PrefixAtMost(p: seq<int>, i: nat)
    requires i <= |p|
    ensures Total(p[..i]) <= Total(p)
  {
    TotalWhole(p, i);
    if i < |p| {
      TotalPrefix(p, i);
    }
  }

  /** The count of the next field, as the original tells the short form from the long one. */
  method DecodeCount(raw: nat, remaining: nat, threshold: nat, nbBits: nat) returns (count: nat, used: nat)
    requires remaining > 0 && Tuned(remaining, threshold, nbBits)
    ensures (count, used) == CountFrom(raw, remaining)
  {
    hide Pow2, Log2, Tuned, Threshold, Spare;
    TunedIs(remaining, threshold, nbBits);
    var maxVal := 2 * threshold - 1 - remaining;
    var lowVal := raw % Pow2(nbBits - 1);
    if lowVal < maxVal {
      return lowVal, nbBits - 1;
    }
    var highVal := raw % Pow2(nbBits);
    if highVal >= threshold {
      return highVal - maxVal, nbBits;
    }
    return highVal, nbBits;
  }

  /** The reader has all the probabilities up to `probs`, and they are those of `p`. */
  ghost predicate Following(data: seq<Byte>, p: seq<int>, al: nat, probs: seq<int>, remaining: nat, bitPos: nat,
                            tail: seq<Bit>)
  {
    |probs| <= |p| && probs == p[..|probs|] && Ahead(data, p, al, |probs|, remaining, bitPos, tail)
  }

  /** The reader stops where this distribution ends: its table is full, or there are no more symbols. */
  ghost predicate Complete(p: seq<int>, al: nat, maxSymbol: nat) {
    |p| <= maxSymbol + 1 && (Total(p) == Pow2(al) || |p| == maxSymbol + 1)
  }

  lemma MoreToRead(p: seq<int>, al: nat, maxSymbol: nat, i: nat, remaining: nat)
    requires Complete(p, al, maxSymbol) && i <= |p| && i <= maxSymbol && 1 < remaining
    requires remaining + Total(p[..i]) == Pow2(al) + 1
    ensures i < |p|
  {
    TotalWhole(p, i);
  }

  /** Reads a description: the distribution up to `maxSymbol`, its log, and the bytes it took. */
  method ReadDescription(data: seq<Byte>, maxSymbol: nat, maxAl: nat, ghost p: seq<int>, ghost al: nat, ghost len: nat)
      returns (r: Option<(seq<int>, nat, nat)>)
    requires maxAl <= 15
    ensures r.Some? ==> Probabilities(r.value.0) && |r.value.0| == maxSymbol + 1 && 5 <= r.value.1 <= maxAl
    ensures r.Some? ==> Total(r.value.0) <= Pow2(r.value.1)
    ensures Describes(data, p, al, len) && al <= maxAl && Complete(p, al, maxSymbol) ==>
              r == Some((p + Rep<int>(0, maxSymbol + 1 - |p|), al, len))
  {
    hide Pow2, Total, Describe, RawAt, CountFrom, Tuned, Describes, Following, TailFrom, RunBits, LeadingZeros;
    hide ByteBits, ReadsOn, Complete, Weight, Probabilities;
    ghost var on := Describes(data, p, al, len) && al <= maxAl && Complete(p, al, maxSymbol);
    ghost var tail: seq<Bit> := [];
    if on {
      tail := Opening(data, p, al, len);
      FollowStart(data, p, al, tail);
    }
    if data == [] {
      return None;
    }
    var log: nat := data[0] % 16 + 5;
    if log > maxAl {
      return None;
    }
    var tableSize := Pow2(log);
    var probs: seq<int>, bitPos: nat := [], 4;
    var remaining: nat, threshold: nat, nbBits: nat := tableSize + 1, tableSize, log + 1;
    TunedAtStart(log);
    NoTotal();
    while true
      invariant remaining >= 1 && Tuned(remaining, threshold, nbBits) && Probabilities(probs)
      invariant remaining + Total(probs) == tableSize + 1
      invariant on ==> Following(data, p, al, probs, remaining, bitPos, tail)
      decreases if |probs| <= maxSymbol then maxSymbol + 1 - |probs| else 0
    {
      if |probs| > maxSymbol {
        break;
      }
      if remaining <= 1 {
        break;
      }
      ghost var z: nat, rest: seq<Bit> := 0, [];
      if on {
        FollowMore(data, p, al, probs, remaining, bitPos, tail, maxSymbol);
        z, rest := FollowField(data, p, al, probs, remaining, bitPos, tail);
      }
      if bitPos / 8 >= |data| {
        return None;
      }
      var raw := PeekRaw(data, bitPos);
      TunedIs(remaining, threshold, nbBits);
      var count, used := DecodeCount(raw, remaining, threshold, nbBits);
      var prob: int := count as int - 1;
      bitPos := bitPos + used;
      WeightBelow(count, remaining);
      OneMore(probs, prob);
      probs := probs + [prob];
      remaining := remaining - Weight(prob);
      threshold, nbBits := Narrow(remaining, threshold, nbBits);
      ZerosMore(probs, 0);
      if prob == 0 {
        var zeros: nat;
        bitPos, zeros := ReadRun(data, bitPos, on, z, rest);
        ZerosMore(probs, zeros);
        probs := probs + Rep<int>(0, zeros);
      }
      if on {
        Followed(data, p, al, probs, remaining, bitPos, rest, tail);
      }
    }
    if on {
      FollowEnd(data, p, al, probs, remaining, bitPos, tail, len, maxSymbol);
    }
    if |probs| <= maxSymbol {
      // No cells are left: the remaining symbols have probability zero.
      ZerosMore(probs, maxSymbol + 1 - |probs|);
      probs := probs + Rep<int>(0, maxSymbol + 1 - |probs|);
    } else {
      Truncated(probs, maxSymbol);
      probs := probs[..maxSymbol + 1];
    }
    return Some((probs, log, (bitPos + 7) / 8));
  }

  lemma WeightBelow(count: nat, remaining: nat)
    requires count <= remaining && remaining > 1
    ensures Weight(count as int - 1) < remaining
  {
  }

  lemma OneMore(probs: seq<int>, prob: int)
    requires Probabilities(probs) && prob >= -1
    ensures Probabilities(probs + [prob]) && Total(probs + [prob]) == Total(probs) + Weight(prob)
  {
    TotalSnoc(probs, prob);
  }

  lemma ZerosMore(probs: seq<int>, z: nat)
    requires Probabilities(probs)
    ensures Probabilities(probs + Rep<int>(0, z)) && Total(probs + Rep<int>(0, z)) == Total(probs)
    ensures probs + Rep<int>(0, 0) == probs
  {
    hide Total;
    TotalMoreZeros(probs, z);
  }

  lemma NoTotal()
    ensures Total([]) == 0 && Probabilities([])
  {
  }

  lemma TotalSnoc(probs: seq<int>, prob: int)
    ensures Total(probs + [prob]) == Total(probs) + Weight(prob)
  {
    assert (probs + [prob])[..|probs|] == probs;
  }

  lemma {:induction false} TotalMoreZeros(probs: seq<int>, z: nat)
    ensures Total(probs + Rep<int>(0, z)) == Total(probs)
    decreases z
  {
    if z == 0 {
      assert probs + Rep<int>(0, 0) == probs;
    } else {
      TotalMoreZeros(probs, z - 1);
      assert (probs + Rep<int>(0, z))[..|probs| + z - 1] == probs + Rep<int>(0, z - 1);
    }
  }

  lemma Truncated(probs: seq<int>, maxSymbol: nat)
    requires |probs| > maxSymbol && Probabilities(probs)
    ensures Probabilities(probs[..maxSymbol + 1]) && Total(probs[..maxSymbol + 1]) <= Total(probs)
  {
    PrefixAtMost(probs, maxSymbol + 1);
  }

  lemma FollowStart(data: seq<Byte>, p: seq<int>, al: nat, tail: seq<Bit>)
    requires Ahead(data, p, al, 0, Pow2(al) + 1, 4, tail)
    ensures Following(data, p, al, [], Pow2(al) + 1, 4, tail)
  {
  }

  lemma FollowMore(data: seq<Byte>, p: seq<int>, al: nat, probs: seq<int>, remaining: nat, bitPos: nat, tail: seq<Bit>,
                   maxSymbol: nat)
    requires Following(data, p, al, probs, remaining, bitPos, tail) && Complete(p, al, maxSymbol)
    requires |probs| <= maxSymbol && remaining > 1
    ensures |probs| < |p|
  {
    MoreToRead(p, al, maxSymbol, |probs|, remaining);
  }

  /** The next probability; after a zero the `z` zeros that follow it, and the rest. */
  lemma FollowField(data: seq<Byte>, p: seq<int>, al: nat, probs: seq<int>, remaining: nat, bitPos: nat, tail: seq<Bit>)
      returns (z: nat, rest: seq<Bit>)
    requires Following(data, p, al, probs, remaining, bitPos, tail) && remaining > 1 && |probs| < |p|
    ensures bitPos / 8 < |data|
    ensures var prob := p[|probs|];
      var (count, bits) := CountFrom(RawAt(data, bitPos), remaining);
      && prob == count as int - 1
      && bitPos + bits <= 8 * |data|
      && (prob == 0 ==> ByteBits(data)[bitPos + bits..] == RunBits(z) + rest)
      && (prob != 0 ==> z == 0 && ByteBits(data)[bitPos + bits..] == rest)
      && ReadsOn(p, al, probs + [prob] + Rep<int>(0, z), remaining - Weight(prob), rest, tail)
  {
    hide Ahead, Describe, CountFrom, RawAt, LeadingZeros, RunBits, ByteBits, Weight, Total, Pow2;
    var i := |probs|;
    GoodAhead(data, p, al, i, remaining, bitPos, tail);
    NextField(data, p, al, i, remaining, bitPos, tail);
    z := if p[i] == 0 then LeadingZeros(p[i + 1..]) else 0;
    rest := Describe(p[i + 1 + z..], remaining - Weight(p[i])) + tail;
    assert [] + rest == rest;
    RunIsZero(p, i, z);
    assert probs + [p[i]] + Rep<int>(0, z) == p[..i + 1 + z];
  }

  lemma RunIsZero(p: seq<int>, i: nat, z: nat)
    requires i < |p| && z == if p[i] == 0 then LeadingZeros(p[i + 1..]) else 0
    ensures i + 1 + z <= |p| && p[..i + 1 + z] == p[..i] + [p[i]] + Rep<int>(0, z)
  {
    forall k | i + 1 <= k < i + 1 + z ensures p[k] == 0 {
      assert p[k] == p[i + 1..][k - (i + 1)];
    }
  }

  /** `probs` is read and `rest` describes what follows it. */
  ghost predicate ReadsOn(p: seq<int>, al: nat, probs: seq<int>, remaining: int, rest: seq<Bit>, tail: seq<Bit>) {
    && 5 <= al <= 15 && Probabilities(p) && Total(p) <= Pow2(al) && |probs| <= |p| && probs == p[..|probs|]
    && remaining > 0 && remaining + Total(p[..|probs|]) == Pow2(al) + 1
    && rest == Describe(p[|probs|..], remaining) + tail
  }

  lemma Followed(data: seq<Byte>, p: seq<int>, al: nat, probs: seq<int>, remaining: nat, bitPos: nat, rest: seq<Bit>,
                 tail: seq<Bit>)
    requires ReadsOn(p, al, probs, remaining, rest, tail) && bitPos <= 8 * |data| && ByteBits(data)[bitPos..] == rest
    ensures Following(data, p, al, probs, remaining, bitPos, tail)
  {
  }

  lemma GoodAhead(data: seq<Byte>, p: seq<int>, al: nat, i: nat, remaining: nat, bitPos: nat, tail: seq<Bit>)
    requires Ahead(data, p, al, i, remaining, bitPos, tail)
    ensures 5 <= al <= 15 && Probabilities(p) && Total(p) <= Pow2(al)
  {
  }

  lemma FollowEnd(data: seq<Byte>, p: seq<int>, al: nat, probs: seq<int>, remaining: nat, bitPos: nat, tail: seq<Bit>,
                  len: nat, maxSymbol: nat)
    requires Following(data, p, al, probs, remaining, bitPos, tail) && TailFrom(data, len, tail)
    requires Complete(p, al, maxSymbol) && (|probs| > maxSymbol || remaining <= 1)
    ensures (bitPos + 7) / 8 == len && |probs| <= |p|
    ensures (if |probs| <= maxSymbol then probs + Rep<int>(0, maxSymbol + 1 - |probs|) else probs[..maxSymbol + 1])
         == p + Rep<int>(0, maxSymbol + 1 - |p|)
  {
    Ending(data, p, al, |probs|, remaining, bitPos, tail, len);
  }
}
