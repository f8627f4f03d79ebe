/** Literal length, match length and offset codes (section 3.1.1.3.2.1 of RFC 8878). */
module ZstdCodes {
  import opened Bytes

  const LL_BASELINES: seq<nat> := [
    0, 1, 2, 3, 4, 5, 6, 7, 8, 9, 10, 11, 12, 13, 14, 15, 16, 18, 20, 22, 24, 28, 32, 40, 48, 64,
    128, 256, 512, 1024, 2048, 4096, 8192, 16384, 32768, 65536]

  const LL_EXTRA_BITS: seq<nat> := [
    0, 0, 0, 0, 0, 0, 0, 0, 0, 0, 0, 0, 0, 0, 0, 0, 1, 1, 1, 1, 2, 2, 3, 3, 4, 6, 7, 8, 9, 10, 11,
    12, 13, 14, 15, 16]

  /** The match lengths with a code of their own, and the baselines of the ranges after them. */
  const ML_SINGLE: seq<nat> := [
    3, 4, 5, 6, 7, 8, 9, 10, 11, 12, 13, 14, 15, 16, 17, 18, 19, 20, 21, 22, 23, 24, 25, 26, 27,
    28, 29, 30, 31, 32, 33, 34]

  const ML_RANGES: seq<nat> := [
    35, 37, 39, 41, 43, 47, 51, 59, 67, 83, 99, 131, 259, 515, 1027,
    2051, 4099, 8195, 16387, 32771, 65539]

  const ML_BASELINES: seq<nat> := ML_SINGLE + ML_RANGES

  const ML_NO_BITS: seq<nat> := [
    0, 0, 0, 0, 0, 0, 0, 0, 0, 0, 0, 0, 0, 0, 0, 0, 0, 0, 0, 0, 0, 0, 0, 0, 0, 0, 0, 0, 0, 0, 0, 0]

  const ML_RANGE_BITS: seq<nat> := [1, 1, 1, 1, 2, 2, 3, 3, 4, 4, 5, 7, 8, 9, 10, 11, 12, 13, 14, 15, 16]

  const ML_EXTRA_BITS: seq<nat> := ML_NO_BITS + ML_RANGE_BITS

  /** `code` stands for `v`: the extra bits reach from its baseline to `v`. */
  predicate Covers(baselines: seq<nat>, extra: seq<nat>, code: nat, v: nat) {
    code < |baselines| && code < |extra| && baselines[code] <= v < baselines[code] + Pow2(extra[code])
  }

  /** 2^n for the extra bits that occur. */
  lemma SmallPowers()
    ensures Pow2(0) == 1 && Pow2(1) == 2 && Pow2(2) == 4 && Pow2(3) == 8 && Pow2(4) == 16 && Pow2(5) == 32
    ensures Pow2(6) == 64 && Pow2(7) == 128 && Pow2(8) == 256 && Pow2(9) == 512 && Pow2(10) == 1024
    ensures Pow2(11) == 2048 && Pow2(12) == 4096 && Pow2(13) == 8192 && Pow2(14) == 16384 && Pow2(15) == 32768
    ensures Pow2(16) == 65536
  {
    assert Pow2(4) == 16;
    assert Pow2(8) == 256;
    assert Pow2(12) == 4096;
  }

  /** The ranges of the literal length codes follow one another without a gap, up to 131072. */
  lemma LlContiguous(code: nat)
    requires code < 36
    ensures |LL_BASELINES| == |LL_EXTRA_BITS| == 36
    ensures (code <= 16 ==> LL_BASELINES[code] == code) && (code < 16 ==> LL_EXTRA_BITS[code] == 0)
    ensures LL_BASELINES[code] + Pow2(LL_EXTRA_BITS[code]) == if code < 35 then LL_BASELINES[code + 1] else 131072
  {
    SmallPowers();
  }

  /** Sixteen codes stand for one length each; then the extra bits grow. */
  lemma LlBits(code: nat)
    requires code < 36
    ensures LL_EXTRA_BITS[code] == if code < 16 then 0 else if code < 20 then 1 else if code < 24 then code / 2 - 8
                                   else if code == 24 then 4 else code - 19
  {
    assert |LL_EXTRA_BITS| == 36;
  }

  lemma MlSingle(code: nat)
    requires code < 32
    ensures |ML_SINGLE| == |ML_NO_BITS| == 32 && ML_SINGLE[code] == code + 3 && ML_NO_BITS[code] == 0
  {
  }

  lemma MlRange(k: nat)
    requires k < 21
    ensures |ML_RANGES| == |ML_RANGE_BITS| == 21 && ML_RANGES[0] == 35
    ensures ML_RANGE_BITS[k] == if k < 4 then 1 else if k < 10 then k / 2 else if k == 10 then 5 else k - 4
    ensures ML_RANGES[k] + Pow2(ML_RANGE_BITS[k]) == if k < 20 then ML_RANGES[k + 1] else 131075
  {
    SmallPowers();
  }

  /** The same for match lengths, from 3 to 131074. */
  lemma MlContiguous(code: nat)
    requires code < 53
    ensures |ML_BASELINES| == |ML_EXTRA_BITS| == 53
    ensures ML_EXTRA_BITS[code] == if code < 32 then 0 else if code < 36 then 1 else if code < 42 then code / 2 - 16
                                   else if code == 42 then 5 else code - 36
    ensures (code <= 32 ==> ML_BASELINES[code] == code + 3) && (code < 32 ==> ML_EXTRA_BITS[code] == 0)
    ensures ML_BASELINES[code] + Pow2(ML_EXTRA_BITS[code]) == if code < 52 then ML_BASELINES[code + 1] else 131075
  {
    hide ML_SINGLE, ML_RANGES, ML_NO_BITS, ML_RANGE_BITS;
    assert Pow2(0) == 1;
    MlSingle(if code < 32 then code else 0);
    MlSingle(if code < 31 then code + 1 else 0);
    MlRange(if code < 32 then 0 else code - 32);
  }

  /** The largest code from `first` to `last` whose baseline is not above `v`, or `first`. */
  function Searched(baselines: seq<nat>, v: nat, last: nat, first: nat): (code: nat)
    requires first <= last < |baselines|
    ensures first <= code <= last && (code > first ==> baselines[code] <= v)
    ensures code < last ==> v < baselines[code + 1]
    decreases last
  {
    if last == first || v >= baselines[last] then last else Searched(baselines, v, last - 1, first)
  }

  method SearchCode(baselines: seq<nat>, v: nat, last: nat, first: nat) returns (code: nat)
    requires first <= last < |baselines|
    ensures code == Searched(baselines, v, last, first)
  {
    code := last;
    while code > first
      invariant first <= code <= last && Searched(baselines, v, last, first) == Searched(baselines, v, code, first)
    {
      if v >= baselines[code] {
        return;
      }
      code := code - 1;
    }
  }

  /** The code of a literal length: its range holds the length. */
  function LlCodeOf(ll: nat): (code: nat)
    ensures code < 36 && (ll < 131072 ==> Covers(LL_BASELINES, LL_EXTRA_BITS, code, ll))
  {
    LlContiguous(16);
    var code := if ll <= 15 then ll else Searched(LL_BASELINES, ll, 35, 16);
    LlContiguous(code);
    code
  }

  function MlCodeOf(ml: nat): (code: nat)
    requires ml >= 3
    ensures code < 53 && (ml < 131075 ==> Covers(ML_BASELINES, ML_EXTRA_BITS, code, ml))
  {
    MlContiguous(32);
    var code := if ml <= 34 then ml - 3 else Searched(ML_BASELINES, ml, 52, 32);
    MlContiguous(code);
    code
  }

  method LlCode(ll: nat) returns (code: nat)
    ensures code == LlCodeOf(ll)
  {
    if ll <= 15 {
      return ll;
    }
    code := SearchCode(LL_BASELINES, ll, 35, 16);
  }

  method MlCode(ml: nat) returns (code: nat)
    requires ml >= 3
    ensures code == MlCodeOf(ml)
  {
    if ml <= 34 {
      return ml - 3;
    }
    MlContiguous(32);
    code := SearchCode(ML_BASELINES, ml, 52, 32);
  }

  /** Offset codes are binary logarithms. */
  function OfCodeOf(offset: nat): (code: nat)
    ensures offset > 0 ==> Pow2(code) <= offset < 2 * Pow2(code)
  {
    if offset == 0 then 0 else Log2(offset)
  }
}
