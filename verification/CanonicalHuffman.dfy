/** Canonical Huffman codes, as bzip2 and DEFLATE assign them from code lengths
    (section 3.2.2 of RFC 1951). */
module CanonicalHuffman {
  import opened Bytes

  datatype Code = Code(code: nat, len: nat, symbol: nat)

  function MaxLen(lengths: seq<nat>): (m: nat)
    ensures forall s :: 0 <= s < |lengths| ==> lengths[s] <= m
    ensures m == 0 || m in lengths
  {
    if lengths == [] then 0
    else
      var init, last := lengths[..|lengths| - 1], lengths[|lengths| - 1];
      assert lengths == init + [last];
      var m := MaxLen(init);
      if last > m then last else m
  }

  /** How many of the first `n` symbols have length `len`. Length 0 means unused. */
  function Count(lengths: seq<nat>, len: nat, n: nat): nat
    requires n <= |lengths|
  {
    if n == 0 then 0 else Count(lengths, len, n - 1) + (if len > 0 && lengths[n - 1] == len then 1 else 0)
  }

  function FirstCode(lengths: seq<nat>, len: nat): nat {
    if len == 0 then 0 else 2 * (FirstCode(lengths, len - 1) + Count(lengths, len - 1, |lengths|))
  }

  /** The code of a symbol: codes of a length are consecutive, in symbol order. */
  function CodeOf(lengths: seq<nat>, s: nat): nat
    requires s < |lengths|
  {
    FirstCode(lengths, lengths[s]) + Count(lengths, lengths[s], s)
  }

  // ----- the Kraft inequality -----

  /** What the first `n` symbols shorter than `len` take up of a code space of 2^max. */
  function Used(lengths: seq<nat>, max: nat, len: nat, n: nat): nat
    requires n <= |lengths|
  {
    if n == 0 then 0
    else Used(lengths, max, len, n - 1)
         + (if 0 < lengths[n - 1] < len && lengths[n - 1] <= max then Pow2(max - lengths[n - 1]) else 0)
  }

  /** The sum of 2^-length over the symbols in use is at most one. */
  ghost predicate Kraft(lengths: seq<nat>) {
    var max := MaxLen(lengths);
    Used(lengths, max, max + 1, |lengths|) <= Pow2(max)
  }

  lemma {:induction false} UsedNext(lengths: seq<nat>, max: nat, len: nat, n: nat)
    requires n <= |lengths| && 0 < len <= max
    ensures Used(lengths, max, len + 1, n) == Used(lengths, max, len, n) + Count(lengths, len, n) * Pow2(max - len)
    decreases n
  {
    if n > 0 {
      UsedNext(lengths, max, len, n - 1);
      var p, c := Pow2(max - len), Count(lengths, len, n - 1);
      if lengths[n - 1] == len {
        assert (c + 1) * p == c * p + p;
      }
    }
  }

  lemma {:induction false} UsedMonotone(lengths: seq<nat>, max: nat, a: nat, b: nat, n: nat)
    requires n <= |lengths| && a <= b
    ensures Used(lengths, max, a, n) <= Used(lengths, max, b, n)
    decreases n
  {
    if n > 0 {
      UsedMonotone(lengths, max, a, b, n - 1);
    }
  }

  lemma {:induction false} UsedNone(lengths: seq<nat>, max: nat, n: nat)
    requires n <= |lengths|
    ensures Used(lengths, max, 1, n) == 0 && Count(lengths, 0, n) == 0
    decreases n
  {
    if n > 0 {
      UsedNone(lengths, max, n - 1);
    }
  }

  /** The first code of a length starts where the shorter codes end. */
  lemma {:induction false} FirstCodeAt(lengths: seq<nat>, max: nat, len: nat)
    requires 1 <= len <= max
    ensures FirstCode(lengths, len) * Pow2(max - len) == Used(lengths, max, len, |lengths|)
    decreases len
  {
    if len == 1 {
      UsedNone(lengths, max, |lengths|);
      assert FirstCode(lengths, 0) == 0;
      assert FirstCode(lengths, 1) == 2 * (FirstCode(lengths, 0) + Count(lengths, 0, |lengths|)) == 0;
    } else {
      FirstCodeAt(lengths, max, len - 1);
      UsedNext(lengths, max, len - 1, |lengths|);
      var p, f, c := Pow2(max - len), FirstCode(lengths, len - 1), Count(lengths, len - 1, |lengths|);
      assert Pow2(max - (len - 1)) == 2 * p;
      Doubled(f, c, p);
    }
  }

  lemma Doubled(f: nat, c: nat, p: nat)
    ensures (2 * (f + c)) * p == f * (2 * p) + c * (2 * p)
  {
    MulAdd(f, c, 2 * p);
    MulAssoc(f + c, 2, p);
  }

  lemma {:induction false} CountMonotone(lengths: seq<nat>, len: nat, m: nat, n: nat)
    requires m <= n <= |lengths|
    ensures Count(lengths, len, m) <= Count(lengths, len, n)
    decreases n
  {
    if m < n {
      CountMonotone(lengths, len, m, n - 1);
    }
  }

  /** The block of code space a symbol owns, at the scale of the longest code. */
  lemma Block(lengths: seq<nat>, s: nat)
    requires s < |lengths| && lengths[s] > 0
    ensures var max, len := MaxLen(lengths), lengths[s];
      && Used(lengths, max, len, |lengths|) <= CodeOf(lengths, s) * Pow2(max - len)
      && (CodeOf(lengths, s) + 1) * Pow2(max - len) <= Used(lengths, max, len + 1, |lengths|)
  {
    var max, len := MaxLen(lengths), lengths[s];
    var f, r, c := FirstCode(lengths, len), Count(lengths, len, s), Count(lengths, len, |lengths|);
    FirstCodeAt(lengths, max, len);
    UsedNext(lengths, max, len, |lengths|);
    CountMonotone(lengths, len, s + 1, |lengths|);
    BlockBounds(f, r, c, Pow2(max - len));
  }

  lemma BlockBounds(f: nat, r: nat, c: nat, p: nat)
    requires r + 1 <= c
    ensures f * p <= (f + r) * p
    ensures (f + r + 1) * p <= f * p + c * p
  {
    MulMonotone(f, f + r, p);
    MulMonotone(f + r + 1, f + c, p);
    MulAdd(f, c, p);
  }

  /** Under Kraft's inequality every code fits its length. */
  lemma CodeFits(lengths: seq<nat>, s: nat)
    requires Kraft(lengths) && s < |lengths| && lengths[s] > 0
    ensures CodeOf(lengths, s) < Pow2(lengths[s])
  {
    var max, len := MaxLen(lengths), lengths[s];
    Block(lengths, s);
    UsedMonotone(lengths, max, len + 1, max + 1, |lengths|);
    Pow2Add(len, max - len);
    Cancel(CodeOf(lengths, s) + 1, Pow2(len), Pow2(max - len));
  }

  /** The codeword of a symbol. */
  function Word(lengths: seq<nat>, s: nat): seq<Bit>
    requires s < |lengths|
  {
    ToBits(CodeOf(lengths, s), lengths[s])
  }

  ghost predicate HasWord(lengths: seq<nat>, s: nat) {
    Kraft(lengths) && s < |lengths| && lengths[s] > 0
  }

  /** The first `k` bits of a code. */
  function Prefix(lengths: seq<nat>, s: nat, k: nat): nat
    requires s < |lengths| && k <= lengths[s]
  {
    Quot(CodeOf(lengths, s), Pow2(lengths[s] - k))
  }

  /** The block of a longer code starts where that of a shorter one has ended. */
  lemma BlocksInOrder(lengths: seq<nat>, s: nat, t: nat)
    requires s < |lengths| && t < |lengths| && 0 < lengths[t] < lengths[s]
    ensures var max := MaxLen(lengths);
      (CodeOf(lengths, t) + 1) * Pow2(max - lengths[t]) <= CodeOf(lengths, s) * Pow2(max - lengths[s])
  {
    Block(lengths, s);
    Block(lengths, t);
    UsedMonotone(lengths, MaxLen(lengths), lengths[t] + 1, lengths[s], |lengths|);
  }

  /** No code is a prefix of another, and codes of one length differ. */
  lemma PrefixFree(lengths: seq<nat>, s: nat, t: nat)
    requires s < |lengths| && t < |lengths| && s != t
    requires 0 < lengths[t] <= lengths[s]
    ensures Prefix(lengths, s, lengths[t]) != CodeOf(lengths, t)
  {
    var max, ls, lt := MaxLen(lengths), lengths[s], lengths[t];
    if ls == lt {
      assert Pow2(0) == 1;
      var a, b := if s < t then s else t, if s < t then t else s;
      CountMonotone(lengths, ls, a + 1, b);
    } else {
      BlocksInOrder(lengths, s, t);
      Pow2Add(ls - lt, max - ls);
      ShiftedAbove(CodeOf(lengths, s), CodeOf(lengths, t), Pow2(ls - lt), Pow2(max - ls));
    }
  }

  lemma ShiftedAbove(cs: nat, ct: nat, q: nat, p: nat)
    requires q > 0 && p > 0 && (ct + 1) * (q * p) <= cs * p
    ensures Quot(cs, q) > ct
  {
    MulAssoc(ct + 1, q, p);
    Cancel((ct + 1) * q, cs, p);
    QuotientAtLeast(cs, q, ct + 1);
  }

  /** The first `k` bits of an `n`-bit number. */
  lemma {:induction false} LeadingBits(v: nat, n: nat, k: nat)
    requires k <= n
    ensures ToBits(v, n)[..k] == ToBits(Quot(v, Pow2(n - k)), k)
    decreases n - k
  {
    if k == n {
      assert Quot(v, 1) == v;
    } else {
      LeadingBits(v / 2, n - 1, k);
      DivDiv(v, n - 1 - k);
      assert ToBits(v, n)[..k] == ToBits(v / 2, n - 1)[..k];
    }
  }

  lemma QuotFits(v: nat, n: nat, k: nat)
    requires k <= n && v < Pow2(n)
    ensures Quot(v, Pow2(n - k)) < Pow2(k)
  {
    var d, q := Pow2(n - k), Quot(v, Pow2(n - k));
    Pow2Add(k, n - k);
    assert v == q * d + v % d;
    if q >= Pow2(k) {
      MulMonotone(Pow2(k), q, d);
    }
  }

  lemma CodePrefix(lengths: seq<nat>, s: nat, len: nat)
    requires Kraft(lengths) && s < |lengths| && 1 <= len <= lengths[s]
    ensures FromBits(ToBits(CodeOf(lengths, s), lengths[s])[..len]) == Prefix(lengths, s, len)
  {
    hide ToBits, Pow2, FromBits, CodeOf;
    CodeFits(lengths, s);
    LeadingBits(CodeOf(lengths, s), lengths[s], len);
    QuotFits(CodeOf(lengths, s), lengths[s], len);
    BitsRoundTrip(Prefix(lengths, s, len), len);
  }

  // ----- the table -----

  function Table(lengths: seq<nat>, n: nat): seq<Code>
    requires n <= |lengths|
  {
    if n == 0 then []
    else Table(lengths, n - 1)
         + (if lengths[n - 1] > 0 then [Code(CodeOf(lengths, n - 1), lengths[n - 1], n - 1)] else [])
  }

  ghost predicate IsEntry(lengths: seq<nat>, e: Code) {
    && e.symbol < |lengths| && lengths[e.symbol] > 0
    && e == Code(CodeOf(lengths, e.symbol), lengths[e.symbol], e.symbol)
  }

  lemma {:induction false} TableEntries(lengths: seq<nat>, n: nat)
    requires n <= |lengths|
    ensures forall k :: 0 <= k < |Table(lengths, n)| ==> IsEntry(lengths, Table(lengths, n)[k])
    decreases n
  {
    if n > 0 {
      TableEntries(lengths, n - 1);
    }
  }

  lemma {:induction false} TableHas(lengths: seq<nat>, n: nat, s: nat) returns (k: nat)
    requires s < n <= |lengths| && lengths[s] > 0
    ensures k < |Table(lengths, n)| && Table(lengths, n)[k] == Code(CodeOf(lengths, s), lengths[s], s)
    decreases n
  {
    if s == n - 1 {
      k := |Table(lengths, n)| - 1;
    } else {
      k := TableHas(lengths, n - 1, s);
    }
  }

  method CountLengths(lengths: seq<nat>, maxLen: nat) returns (blCount: array<nat>)
    requires maxLen == MaxLen(lengths)
    ensures fresh(blCount) && blCount.Length == maxLen + 1
    ensures forall len :: 0 <= len <= maxLen ==> blCount[len] == Count(lengths, len, |lengths|)
  {
    blCount := new nat[maxLen + 1](_ => 0);
    var i: nat := 0;
    while i < |lengths|
      invariant i <= |lengths|
      invariant forall len :: 0 <= len <= maxLen ==> blCount[len] == Count(lengths, len, i)
    {
      if lengths[i] > 0 {
        blCount[lengths[i]] := blCount[lengths[i]] + 1;
      }
      i := i + 1;
    }
  }

  lemma FirstCodeStep(lengths: seq<nat>)
    ensures FirstCode(lengths, 0) == 0
    ensures forall n :: 0 < n ==>
        FirstCode(lengths, n) == (FirstCode(lengths, n - 1) + Count(lengths, n - 1, |lengths|)) * 2
  {
  }

  lemma TableStep(lengths: seq<nat>)
    ensures Table(lengths, 0) == [] && forall len :: Count(lengths, len, 0) == 0
    ensures forall n, len :: 0 <= n < |lengths| && len > 0 ==>
              Count(lengths, len, n + 1) == Count(lengths, len, n) + (if lengths[n] == len then 1 else 0)
    ensures forall n :: 0 <= n < |lengths| ==>
              Table(lengths, n + 1) == Table(lengths, n)
              + (if lengths[n] > 0
                  then [Code(FirstCode(lengths, lengths[n]) + Count(lengths, lengths[n], n), lengths[n], n)] else [])
  {
  }

  method FirstCodes(lengths: seq<nat>, maxLen: nat, blCount: array<nat>) returns (nextCode: array<nat>)
    requires blCount.Length == maxLen + 1
    requires forall len :: 0 <= len <= maxLen ==> blCount[len] == Count(lengths, len, |lengths|)
    ensures fresh(nextCode) && nextCode.Length == maxLen + 1
    ensures forall len :: 1 <= len <= maxLen ==> nextCode[len] == FirstCode(lengths, len)
  {
    hide Count, FirstCode;
    nextCode := new nat[maxLen + 1](_ => 0);
    var code: nat := 0;
    FirstCodeStep(lengths);
    var bits: nat := 1;
    while bits <= maxLen
      invariant 1 <= bits <= maxLen + 1 && code == FirstCode(lengths, bits - 1)
      invariant forall len :: 1 <= len < bits ==> nextCode[len] == FirstCode(lengths, len)
    {
      code := (code + blCount[bits - 1]) * 2;
      nextCode[bits] := code;
      bits := bits + 1;
    }
  }

  method BuildCodes(lengths: seq<nat>) returns (codes: seq<Code>, maxLen: nat)
    ensures maxLen == MaxLen(lengths) && codes == Table(lengths, |lengths|)
  {
    hide MaxLen, FirstCode, Count, Table;
    TableStep(lengths);
    maxLen := MaxLen(lengths);
    var blCount := CountLengths(lengths, maxLen);
    var nextCode := FirstCodes(lengths, maxLen, blCount);
    codes := [];
    var i: nat := 0;
    while i < |lengths|
      invariant i <= |lengths| && codes == Table(lengths, i)
      invariant forall len :: 1 <= len <= maxLen ==> nextCode[len] == FirstCode(lengths, len) + Count(lengths, len, i)
    {
      var len := lengths[i];
      if len > 0 {
        codes := codes + [Code(nextCode[len], len, i)];
        nextCode[len] := nextCode[len] + 1;
      }
      i := i + 1;
    }
  }

  /** The symbol of the first entry with this code and length. */
  method Lookup(codes: seq<Code>, code: nat, len: nat) returns (found: Option<nat>)
    ensures LooksUp(codes, code, len, found)
  {
    var k: nat := 0;
    while k < |codes|
      invariant k <= |codes|
      invariant forall h :: 0 <= h < k ==> !(codes[h].code == code && codes[h].len == len)
    {
      if codes[k].len == len && codes[k].code == code {
        return Some(codes[k].symbol);
      }
      k := k + 1;
    }
    return None;
  }

  /** The outcome of `Lookup`. */
  ghost predicate LooksUp(codes: seq<Code>, code: nat, len: nat, found: Option<nat>) {
    match found
    case None => forall k :: 0 <= k < |codes| ==> !(codes[k].code == code && codes[k].len == len)
    case Some(s) => exists k :: 0 <= k < |codes| && codes[k] == Code(code, len, s)
  }

  /** Looking up the first `k` bits of the code of `s` finds nothing before the whole code, and
      then `s`. */
  lemma LookupPrefix(lengths: seq<nat>, s: nat, k: nat, found: Option<nat>)
    requires s < |lengths| && 1 <= k <= lengths[s]
    requires LooksUp(Table(lengths, |lengths|), Prefix(lengths, s, k), k, found)
    ensures found == if k < lengths[s] then None else Some(s)
  {
    var table := Table(lengths, |lengths|);
    TableEntries(lengths, |lengths|);
    var h := TableHas(lengths, |lengths|, s);
    assert Pow2(0) == 1;
    if found.Some? && found.value != s {
      var i :| 0 <= i < |table| && table[i] == Code(Prefix(lengths, s, k), k, found.value);
      assert IsEntry(lengths, table[i]);
      PrefixFree(lengths, s, found.value);
    } else if found.Some? {
      var i :| 0 <= i < |table| && table[i] == Code(Prefix(lengths, s, k), k, found.value);
      assert IsEntry(lengths, table[i]);
    }
  }

  // ----- equal lengths -----

  lemma {:induction false} CountUniform(lengths: seq<nat>, l: nat, len: nat, n: nat)
    requires n <= |lengths| && l > 0 && forall s :: 0 <= s < |lengths| ==> lengths[s] == l
    ensures Count(lengths, len, n) == if len == l then n else 0
    decreases n
  {
    if n > 0 {
      CountUniform(lengths, l, len, n - 1);
    }
  }

  lemma {:induction false} FirstCodeUniform(lengths: seq<nat>, l: nat, len: nat)
    requires l > 0 && len <= l && forall s :: 0 <= s < |lengths| ==> lengths[s] == l
    ensures FirstCode(lengths, len) == 0
    decreases len
  {
    if len > 0 {
      FirstCodeUniform(lengths, l, len - 1);
      CountUniform(lengths, l, len - 1, |lengths|);
    }
  }

  /** When all lengths are equal, the code of a symbol is its number. */
  lemma UniformCode(lengths: seq<nat>, l: nat, s: nat)
    requires l > 0 && (forall k :: 0 <= k < |lengths| ==> lengths[k] == l) && s < |lengths|
    ensures CodeOf(lengths, s) == s && MaxLen(lengths) == l
  {
    FirstCodeUniform(lengths, l, l);
    CountUniform(lengths, l, l, s);
  }

  lemma {:induction false} UsedUniform(lengths: seq<nat>, l: nat, n: nat)
    requires n <= |lengths| && l > 0 && forall s :: 0 <= s < |lengths| ==> lengths[s] == l
    ensures Used(lengths, l, l + 1, n) == n
    decreases n
  {
    if n > 0 {
      UsedUniform(lengths, l, n - 1);
      assert Pow2(0) == 1;
    }
  }

  /** Equal lengths satisfy Kraft's inequality when there are enough codes. */
  lemma UniformKraft(lengths: seq<nat>, l: nat)
    requires l > 0 && lengths != [] && (forall k :: 0 <= k < |lengths| ==> lengths[k] == l)
    requires |lengths| <= Pow2(l)
    ensures Kraft(lengths)
  {
    UniformCode(lengths, l, 0);
    UsedUniform(lengths, l, |lengths|);
  }
}
