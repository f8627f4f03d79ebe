/** The Huffman decoding table of zstd (section 4.2.1 of RFC 8878): weights, completed by an
    implied last one, tile a table of 2^maxBits cells without gap or overlap. */
module ZstdHuffman {
  import opened Bytes

  const MAX_WEIGHT: nat := 12

  datatype Entry = Entry(symbol: nat, numBits: nat)

  datatype HuffTable = HuffTable(entries: seq<Entry>, maxBits: nat)

  /** The number of cells of a symbol. */
  function Size(w: nat): nat {
    if w == 0 then 0 else Pow2(w - 1)
  }

  /** The cells of the first `n` symbols with weight below `w`. */
  function Used(weights: seq<nat>, w: nat, n: nat): nat
    requires n <= |weights|
  {
    if n == 0 then 0
    else Used(weights, w, n - 1) + (if weights[n - 1] < w then Size(weights[n - 1]) else 0)
  }

  /** How many of the first `n` symbols have weight `w`. */
  function Same(weights: seq<nat>, w: nat, n: nat): nat
    requires n <= |weights|
  {
    if n == 0 then 0 else Same(weights, w, n - 1) + (if weights[n - 1] == w then 1 else 0)
  }

  /** Where the cells of a symbol start: lighter symbols first, then in symbol order. */
  function Base(weights: seq<nat>, s: nat): nat
    requires s < |weights|
  {
    Used(weights, weights[s], |weights|) + Same(weights, weights[s], s) * Size(weights[s])
  }

  ghost predicate InBlock(weights: seq<nat>, s: nat, idx: nat)
    requires s < |weights|
  {
    Base(weights, s) <= idx < Base(weights, s) + Size(weights[s])
  }

  /** The weights fill 2^max cells. */
  ghost predicate Complete(weights: seq<nat>, max: nat) {
    && (forall s :: 0 <= s < |weights| ==> weights[s] <= max)
    && Used(weights, max + 1, |weights|) == Pow2(max)
  }

  lemma {:induction false} UsedNext(weights: seq<nat>, w: nat, n: nat)
    requires n <= |weights|
    ensures Used(weights, w + 1, n) == Used(weights, w, n) + Same(weights, w, n) * Size(w)
    decreases n
  {
    if n > 0 {
      UsedNext(weights, w, n - 1);
      MulAdd(Same(weights, w, n - 1), 1, Size(w));
    }
  }

  lemma {:induction false} UsedMonotone(weights: seq<nat>, v: nat, w: nat)
    requires v <= w
    ensures Used(weights, v, |weights|) <= Used(weights, w, |weights|)
    decreases w
  {
    if v < w {
      UsedMonotone(weights, v, w - 1);
      UsedNext(weights, w - 1, |weights|);
    }
  }

  lemma {:induction false} UsedNone(weights: seq<nat>, n: nat)
    requires n <= |weights|
    ensures Used(weights, 0, n) == 0 && Used(weights, 1, n) == 0
    decreases n
  {
    if n > 0 {
      UsedNone(weights, n - 1);
    }
  }

  lemma {:induction false} SameBelow(weights: seq<nat>, s: nat, n: nat)
    requires s < n <= |weights|
    ensures Same(weights, weights[s], s) < Same(weights, weights[s], n)
    decreases n
  {
    if s < n - 1 {
      SameBelow(weights, s, n - 1);
    }
  }

  /** A block ends before the symbols of greater weight start. */
  lemma BlockEnds(weights: seq<nat>, s: nat)
    requires s < |weights|
    ensures Base(weights, s) + Size(weights[s]) <= Used(weights, weights[s] + 1, |weights|)
  {
    SameBelow(weights, s, |weights|);
    UsedNext(weights, weights[s], |weights|);
    MulAdd(Same(weights, weights[s], s), 1, Size(weights[s]));
    MulMonotone(Same(weights, weights[s], s) + 1, Same(weights, weights[s], |weights|), Size(weights[s]));
  }

  /** No cell belongs to two symbols. */
  lemma BlocksDisjoint(weights: seq<nat>, s: nat, t: nat, idx: nat)
    requires s < |weights| && t < |weights| && InBlock(weights, s, idx) && InBlock(weights, t, idx)
    ensures s == t
  {
    if weights[s] < weights[t] {
      InOrder(weights, s, t);
      assert false;
    } else if weights[t] < weights[s] {
      InOrder(weights, t, s);
      assert false;
    } else if s < t {
      Earlier(weights, s, t);
      assert false;
    } else if t < s {
      Earlier(weights, t, s);
      assert false;
    }
  }

  lemma InOrder(weights: seq<nat>, s: nat, t: nat)
    requires s < |weights| && t < |weights| && weights[s] < weights[t]
    ensures Base(weights, s) + Size(weights[s]) <= Base(weights, t)
  {
    BlockEnds(weights, s);
    UsedMonotone(weights, weights[s] + 1, weights[t]);
  }

  lemma Earlier(weights: seq<nat>, s: nat, t: nat)
    requires s < t < |weights| && weights[s] == weights[t]
    ensures Base(weights, s) + Size(weights[s]) <= Base(weights, t)
  {
    SameBelow(weights, s, t);
    MulAdd(Same(weights, weights[s], s), 1, Size(weights[s]));
    MulMonotone(Same(weights, weights[s], s) + 1, Same(weights, weights[s], t), Size(weights[s]));
  }

  lemma {:induction false} Nth(weights: seq<nat>, w: nat, k: nat, n: nat) returns (s: nat)
    requires n <= |weights| && k < Same(weights, w, n)
    ensures s < n && weights[s] == w && Same(weights, w, s) == k
    decreases n
  {
    if k < Same(weights, w, n - 1) {
      s := Nth(weights, w, k, n - 1);
    } else {
      s := n - 1;
    }
  }

  /** Every cell belongs to a symbol. */
  lemma {:induction false} Owner(weights: seq<nat>, w: nat, idx: nat) returns (s: nat)
    requires idx < Used(weights, w, |weights|)
    ensures s < |weights| && InBlock(weights, s, idx)
    decreases w
  {
    UsedNone(weights, |weights|);
    UsedNext(weights, w - 1, |weights|);
    if idx < Used(weights, w - 1, |weights|) {
      s := Owner(weights, w - 1, idx);
    } else {
      var d, z := idx - Used(weights, w - 1, |weights|), Size(w - 1);
      assert z > 0;
      CanDivide(d, z, Same(weights, w - 1, |weights|));
      s := Nth(weights, w - 1, Quot(d, z), |weights|);
    }
  }

  lemma CanDivide(d: nat, z: nat, n: nat)
    requires z > 0 && d < n * z
    ensures Quot(d, z) < n && Quot(d, z) * z <= d < Quot(d, z) * z + z
  {
    var q := d / z;
    assert d == q * z + d % z;
    if q >= n {
      MulMonotone(n, q, z);
    }
  }

  // ----- alignment -----

  /** In a complete set of weights, the lighter symbols take a multiple of 2^(w-1) cells. */
  lemma {:induction false} Multiple(weights: seq<nat>, max: nat, w: nat) returns (q: nat)
    requires Complete(weights, max) && 1 <= w <= max + 1
    ensures Used(weights, w, |weights|) == q * Size(w)
    decreases max + 1 - w
  {
    hide Used, Same;
    if w == max + 1 {
      q := 1;
    } else {
      var r := Multiple(weights, max, w + 1);
      UsedNext(weights, w, |weights|);
      assert Size(w + 1) == 2 * Size(w);
      q := TakeAway(r, Same(weights, w, |weights|), Size(w), Used(weights, w, |weights|));
    }
  }

  lemma TakeAway(r: nat, n: nat, z: nat, used: nat) returns (q: nat)
    requires z > 0 && used + n * z == r * (2 * z)
    ensures used == q * z
  {
    MulAssoc(r, 2, z);
    MulAdd(2 * r - n, n, z);
    NotNegative(2 * r - n, z);
    q := 2 * r - n;
  }

  lemma NotNegative(a: int, z: nat)
    requires z > 0 && a * z >= 0
    ensures a >= 0
  {
  }

  /** The cells of a symbol are those that share their leading bits: its code. */
  lemma BlockIsPrefix(weights: seq<nat>, max: nat, s: nat, idx: nat, other: nat)
    requires Complete(weights, max) && s < |weights| && weights[s] > 0 && InBlock(weights, s, idx)
    ensures InBlock(weights, s, other) <==> Quot(other, Size(weights[s])) == Quot(idx, Size(weights[s]))
  {
    var z, k := Size(weights[s]), Same(weights, weights[s], s);
    var q := Multiple(weights, max, weights[s]);
    MulAdd(q, k, z);
    Block(q + k, z, idx);
    Block(q + k, z, other);
  }

  lemma Block(q: nat, z: nat, idx: nat)
    requires z > 0
    ensures q * z <= idx < q * z + z <==> Quot(idx, z) == q
  {
    var h := idx / z;
    assert idx == h * z + idx % z;
    if q * z <= idx < q * z + z {
      DivUnique(idx, z, q, idx - q * z);
    }
  }

  // ----- the implied weight -----

  lemma {:induction false} UsedSnoc(weights: seq<nat>, v: nat, w: nat, n: nat)
    requires n <= |weights|
    ensures Used(weights + [v], w, n) == Used(weights, w, n) && Same(weights + [v], w, n) == Same(weights, w, n)
    decreases n
  {
    if n > 0 {
      UsedSnoc(weights, v, w, n - 1);
    }
  }

  lemma UsedWith(weights: seq<nat>, v: nat, w: nat)
    ensures Used(weights + [v], w, |weights| + 1) == Used(weights, w, |weights|) + (if v < w then Size(v) else 0)
  {
    UsedSnoc(weights, v, w, |weights|);
  }

  /** Weights can be completed by one more, within `MAX_WEIGHT` bits. */
  ghost predicate Completed(weights: seq<nat>, v: nat, max: nat) {
    v >= 1 && max <= MAX_WEIGHT && Complete(weights + [v], max)
  }

  ghost predicate Completable(weights: seq<nat>) {
    exists v: nat, max: nat :: Completed(weights, v, max)
  }

  ghost predicate AtMost(weights: seq<nat>, m: nat) {
    forall s :: 0 <= s < |weights| ==> weights[s] <= m
  }

  lemma {:induction false} UsedBeyond(weights: seq<nat>, m: nat, w: nat, n: nat)
    requires AtMost(weights, m) && m < w && n <= |weights|
    ensures Used(weights, w, n) == Used(weights, m + 1, n)
    decreases n
  {
    if n > 0 {
      UsedBeyond(weights, m, w, n - 1);
    }
  }

  /** What completing takes: the weight is determined, and so is the number of bits. */
  lemma CompletedMeans(weights: seq<nat>, v: nat, max: nat, m: nat)
    requires Completed(weights, v, max) && AtMost(weights, m)
    ensures var sum := Used(weights, m + 1, |weights|);
      sum > 0 && AtMost(weights, max) && v <= max && sum + Pow2(v - 1) == Pow2(max) && Pow2(max - 1) <= sum
  {
    var full := weights + [v];
    forall s | 0 <= s < |weights| ensures weights[s] <= max {
      assert full[s] == weights[s];
    }
    assert full[|weights|] == v;
    UsedWith(weights, v, max + 1);
    UsedBeyond(weights, m, m + max + 1, |weights|);
    UsedBeyond(weights, max, m + max + 1, |weights|);
    Pow2Monotone(v - 1, max - 1);
  }

  lemma MaxAtMost(weights: seq<nat>, m: nat, max: nat)
    requires AtMost(weights, max) && exists s :: 0 <= s < |weights| && weights[s] == m
    ensures m <= max
  {
  }

  /** The number of bits the builder settles on is the only one that can work. */
  lemma OnlyBits(weights: seq<nat>, m: nat, log: nat)
    requires AtMost(weights, m) && m <= log
    requires var sum := Used(weights, m + 1, |weights|); (log > m ==> Pow2(log - 1) <= sum)
    requires exists s :: 0 <= s < |weights| && weights[s] == m
    ensures forall v: nat, max: nat :: Completed(weights, v, max) ==> log <= max
    ensures Pow2(log) > Used(weights, m + 1, |weights|) ==> forall v: nat, max: nat :: Completed(weights, v, max) ==>
        max == log
  {
    hide Used, Completed, Pow2, AtMost;
    var sum := Used(weights, m + 1, |weights|);
    forall v: nat, max: nat | Completed(weights, v, max) ensures log <= max && (Pow2(log) > sum ==> max == log) {
      CompletedMeans(weights, v, max, m);
      MaxAtMost(weights, m, max);
      if max < log {
        Pow2Monotone(max, log - 1);
        assert false;
      }
      if log < max {
        Pow2Monotone(log, max - 1);
      }
    }
  }

  /** There is one way to complete weights. */
  lemma CompletedOnce(weights: seq<nat>, v: nat, max: nat, v': nat, max': nat)
    requires Completed(weights, v, max) && Completed(weights, v', max')
    ensures v == v' && max == max'
  {
    hide Used, Pow2;
    forall s | 0 <= s < |weights| ensures weights[s] <= max {
      assert (weights + [v])[s] == weights[s];
    }
    CompletedMeans(weights, v, max, max);
    CompletedMeans(weights, v', max', max);
    if max < max' {
      Pow2Monotone(max, max' - 1);
    } else if max' < max {
      Pow2Monotone(max', max - 1);
    }
    Log2OfPower(v - 1);
    Log2OfPower(v' - 1);
  }

  lemma BitsAtMost(weights: seq<nat>, v: nat, max: nat)
    requires Completed(weights, v, max)
    ensures v >= 1 && max <= MAX_WEIGHT
  {
  }

  lemma Log2OfPower(n: nat)
    ensures Log2(Pow2(n)) == n
  {
    Log2Is(Pow2(n), n);
  }

  /** Too many bits, or a rest that is no power of two: nothing completes the weights. */
  lemma NoCompletion(weights: seq<nat>, m: nat, log: nat)
    requires AtMost(weights, m) && forall v: nat, max: nat :: Completed(weights, v, max) ==> log <= max
    requires var sum := Used(weights, m + 1, |weights|);
      log > MAX_WEIGHT
      || (Pow2(log) > sum && Pow2(Log2(Pow2(log) - sum)) != Pow2(log) - sum
          && forall v: nat, max: nat :: Completed(weights, v, max) ==> max == log)
    ensures !Completable(weights)
  {
    hide Used, Completed, Pow2, AtMost, Log2;
    var sum := Used(weights, m + 1, |weights|);
    forall v: nat, max: nat ensures !Completed(weights, v, max) {
      if Completed(weights, v, max) {
        CompletedMeans(weights, v, max, m);
        BitsAtMost(weights, v, max);
        Log2OfPower(v - 1);
      }
    }
  }

  /** The completion the builder uses. */
  lemma Completes(weights: seq<nat>, m: nat, log: nat, v: nat)
    requires AtMost(weights, m) && m <= log <= MAX_WEIGHT && v >= 1
    requires var sum := Used(weights, m + 1, |weights|); sum > 0 && sum + Pow2(v - 1) == Pow2(log)
    ensures Completed(weights, v, log) && Completable(weights)
  {
    hide Used, Pow2;
    if v > log {
      Pow2Monotone(log, v - 1);
      assert false;
    }
    UsedWith(weights, v, log + 1);
    UsedBeyond(weights, m, log + 1, |weights|);
    assert Completed(weights, v, log);
  }

  // ----- building -----

  /** Counts the weights; refuses one that is too large. */
  method CountWeights(weights: seq<nat>) returns (ok: bool, counts: array<nat>, maxWeight: nat)
    ensures fresh(counts) && counts.Length == 13
    ensures ok <==> AtMost(weights, MAX_WEIGHT)
    ensures ok ==> AtMost(weights, maxWeight) && maxWeight <= MAX_WEIGHT
    ensures ok && weights != [] ==> exists s :: 0 <= s < |weights| && weights[s] == maxWeight
    ensures ok ==> forall w :: 0 <= w <= MAX_WEIGHT ==> counts[w] == Same(weights, w, |weights|)
  {
    counts := new nat[13](_ => 0);
    maxWeight := 0;
    var i: nat := 0;
    while i < |weights|
      invariant i <= |weights| && maxWeight <= MAX_WEIGHT
      invariant forall s :: 0 <= s < i ==> weights[s] <= maxWeight
      invariant i > 0 ==> exists s :: 0 <= s < i && weights[s] == maxWeight
      invariant forall w :: 0 <= w <= MAX_WEIGHT ==> counts[w] == Same(weights, w, i)
    {
      var w := weights[i];
      if w > MAX_WEIGHT {
        return false, counts, maxWeight;
      }
      counts[w] := counts[w] + 1;
      if w > maxWeight || i == 0 {
        maxWeight := w;
      }
      i := i + 1;
    }
    ok := true;
  }

  /** The cells the explicit weights take. */
  method SumWeights(weights: seq<nat>, counts: array<nat>, maxWeight: nat) returns (sum: nat)
    requires counts.Length == 13 && maxWeight <= MAX_WEIGHT
    requires forall w :: 0 <= w <= MAX_WEIGHT ==> counts[w] == Same(weights, w, |weights|)
    ensures sum == Used(weights, maxWeight + 1, |weights|)
  {
    hide Used, Same, Pow2;
    sum := 0;
    UsedNone(weights, |weights|);
    var w: nat := 1;
    while w <= maxWeight
      invariant 1 <= w <= maxWeight + 1 && sum == Used(weights, w, |weights|)
    {
      UsedNext(weights, w, |weights|);
      sum := sum + counts[w] * Pow2(w - 1);
      w := w + 1;
    }
  }

  /** The implied weight and the number of bits, if the weights can be completed. */
  method Complement(weights: seq<nat>) returns (r: Option<(nat, nat)>)
    ensures r.Some? ==> Completed(weights, r.value.0, r.value.1)
    ensures r.Some? <==> Completable(weights)
    ensures forall v: nat, max: nat :: Completed(weights, v, max) ==> r == Some((v, max))
  {
    hide Used, Same, Pow2, Completed, Log2;
    if weights == [] {
      NothingToComplete(weights);
      return None;
    }
    var ok, counts, maxWeight := CountWeights(weights);
    if !ok {
      TooHeavy(weights);
      return None;
    }
    if maxWeight == 0 {
      NothingToComplete(weights);
      return None;
    }
    var sum := SumWeights(weights, counts, maxWeight);
    SumOverZero(weights, maxWeight);
    var log := maxWeight;
    while Pow2(log) <= sum
      invariant maxWeight <= log <= MAX_WEIGHT && (log > maxWeight ==> Pow2(log - 1) <= sum)
      decreases MAX_WEIGHT - log
    {
      log := log + 1;
      if log > MAX_WEIGHT {
        OnlyBits(weights, maxWeight, log);
        NoCompletion(weights, maxWeight, log);
        return None;
      }
    }
    OnlyBits(weights, maxWeight, log);
    var remainder := Pow2(log) - sum;
    // A power of two, or nothing fits.
    if Pow2(Log2(remainder)) != remainder {
      NoCompletion(weights, maxWeight, log);
      return None;
    }
    Completes(weights, maxWeight, log, Log2(remainder) + 1);
    forall v: nat, max: nat | Completed(weights, v, max) ensures v == Log2(remainder) + 1 && max == log {
      CompletedOnce(weights, v, max, Log2(remainder) + 1, log);
    }
    return Some((Log2(remainder) + 1, log));
  }

  lemma NothingToComplete(weights: seq<nat>)
    requires AtMost(weights, 0)
    ensures !Completable(weights)
  {
    forall v: nat, max: nat ensures !Completed(weights, v, max) {
      if Completed(weights, v, max) {
        CompletedMeans(weights, v, max, 0);
        UsedNone(weights, |weights|);
        assert false;
      }
    }
  }

  lemma TooHeavy(weights: seq<nat>)
    requires !AtMost(weights, MAX_WEIGHT)
    ensures !Completable(weights)
  {
    var s :| 0 <= s < |weights| && weights[s] > MAX_WEIGHT;
    forall v: nat, max: nat ensures !Completed(weights, v, max) {
      assert (weights + [v])[s] == weights[s];
    }
  }

  lemma {:induction false} SumOverZero(weights: seq<nat>, m: nat)
    requires m > 0 && exists s :: 0 <= s < |weights| && weights[s] == m
    ensures Used(weights, m + 1, |weights|) > 0
  {
    var s :| 0 <= s < |weights| && weights[s] == m;
    BlockEnds(weights, s);
  }

  /** The entry of a symbol. */
  function EntryOf(full: seq<nat>, max: nat, s: nat): Entry
    requires s < |full| && full[s] <= max
  {
    Entry(s, max + 1 - full[s])
  }

  /** The table is what the weights say: every cell holds the symbol it belongs to. */
  ghost predicate TableIs(t: HuffTable, full: seq<nat>) {
    && Complete(full, t.maxBits) && |t.entries| == Pow2(t.maxBits)
    && forall s, idx :: 0 <= s < |full| && 0 <= idx < |t.entries| && InBlock(full, s, idx) ==>
         t.entries[idx] == EntryOf(full, t.maxBits, s)
  }

  ghost predicate Filled(entries: seq<Entry>, full: seq<nat>, max: nat, n: nat)
    requires n <= |full| && AtMost(full, max)
  {
    forall s, idx :: 0 <= s < n && 0 <= idx < |entries| && InBlock(full, s, idx) ==>
        entries[idx] == EntryOf(full, max, s)
  }

  /** First cells per number of bits, longest codes first. */
  method RankIndexes(full: seq<nat>, max: nat) returns (rank: array<nat>)
    requires Complete(full, max) && 1 <= max <= MAX_WEIGHT
    ensures fresh(rank) && rank.Length == 13
    ensures forall b :: 0 <= b <= max ==> rank[b] == Used(full, max + 1 - b, |full|)
  {
    hide Used, Same, Pow2;
    var bitRanks := new nat[13](_ => 0);
    var i: nat := 0;
    NoneYet(full);
    while i < |full|
      invariant i <= |full|
      invariant forall b :: 1 <= b <= max ==> bitRanks[b] == Same(full, max + 1 - b, i)
    {
      SameNext(full, i);
      if full[i] > 0 {
        var bits := max + 1 - full[i];
        bitRanks[bits] := bitRanks[bits] + 1;
      }
      i := i + 1;
    }
    rank := new nat[13](_ => 0);
    UsedNone(full, |full|);
    var b: nat := max;
    while b > 0
      invariant b <= max && forall c :: 1 <= c <= max ==> bitRanks[c] == Same(full, max + 1 - c, |full|)
      invariant forall c :: b <= c <= max ==> rank[c] == Used(full, max + 1 - c, |full|)
    {
      UsedNext(full, max + 1 - b, |full|);
      rank[b - 1] := rank[b] + bitRanks[b] * Pow2(max - b);
      b := b - 1;
    }
  }

  lemma NoneYet(full: seq<nat>)
    ensures forall w :: Same(full, w, 0) == 0
  {
  }

  lemma SameNext(full: seq<nat>, i: nat)
    requires i < |full|
    ensures forall w :: Same(full, w, i + 1) == Same(full, w, i) + (if full[i] == w then 1 else 0)
  {
  }

  /** Writes the cells of one symbol. */
  method FillSymbol(table: array<Entry>, full: seq<nat>, max: nat, s: nat, base: nat)
    requires Complete(full, max) && table.Length == Pow2(max) && s < |full| && full[s] > 0 && base == Base(full, s)
    requires AtMost(full, max) && Filled(table[..], full, max, s)
    modifies table
    ensures Filled(table[..], full, max, s + 1)
  {
    hide Base, Size, Complete, Pow2;
    ghost var before := table[..];
    var n, tableSize := Pow2(full[s] - 1), table.Length;
    SizeOf(full[s]);
    var j: nat := 0;
    while j < n
      invariant j <= n
      invariant forall idx :: 0 <= idx < table.Length ==>
        table[idx] == if base <= idx < base + j then EntryOf(full, max, s) else before[idx]
    {
      if base + j < tableSize {
        table[base + j] := Entry(s, max + 1 - full[s]);
      }
      j := j + 1;
    }
    forall t, idx | 0 <= t < s + 1 && 0 <= idx < table.Length && InBlock(full, t, idx)
      ensures table[..][idx] == EntryOf(full, max, t)
    {
      if t < s {
        if base <= idx < base + n {
          BlocksDisjoint(full, t, s, idx);
        }
        assert before[idx] == EntryOf(full, max, t);
      }
    }
  }

  lemma SizeOf(w: nat)
    requires w > 0
    ensures Size(w) == Pow2(w - 1)
  {
  }

  /** The table for weights without the implied last one; it succeeds exactly when the weights can
      be completed. */
  method Build(weights: seq<nat>) returns (r: Option<HuffTable>, ghost full: seq<nat>)
    ensures r.Some? <==> Completable(weights)
    ensures r.Some? ==> |full| == |weights| + 1 && full[..|weights|] == weights && r.value.maxBits <= MAX_WEIGHT
                        && TableIs(r.value, full)
    ensures r.Some? ==> forall v: nat, max: nat :: Completed(weights, v, max) ==>
              full == weights + [v] && r.value.maxBits == max
  {
    hide Used, Same, Pow2, Base, Size, InBlock;
    var c := Complement(weights);
    full := [];
    if c.None? {
      return None, full;
    }
    var implied, max := c.value.0, c.value.1;
    var all := weights + [implied];
    full := all;
    Bits(weights, implied, max);
    var rank := RankIndexes(all, max);
    var table := new Entry[Pow2(max)](_ => Entry(0, 0));
    var s: nat := 0;
    NoneYet(all);
    while s < |all|
      invariant s <= |all| && AtMost(all, max)
      invariant forall b :: 1 <= b <= max ==>
          rank[b] == Used(all, max + 1 - b, |all|) + Same(all, max + 1 - b, s) * Pow2(max - b)
      invariant Filled(table[..], all, max, s)
    {
      SameNext(all, s);
      if all[s] > 0 {
        var bits := max + 1 - all[s];
        BaseIs(all, s);
        FillSymbol(table, all, max, s, rank[bits]);
        MulAdd(Same(all, all[s], s), 1, Pow2(max - bits));
        rank[bits] := rank[bits] + Pow2(max - bits);
      } else {
        NoCells(table[..], all, max, s);
      }
      s := s + 1;
    }
    return Some(HuffTable(table[..], max)), full;
  }

  lemma Bits(weights: seq<nat>, v: nat, max: nat)
    requires Completed(weights, v, max)
    ensures Complete(weights + [v], max) && 1 <= max <= MAX_WEIGHT && AtMost(weights + [v], max)
  {
    assert (weights + [v])[|weights|] == v;
  }

  lemma BaseIs(full: seq<nat>, s: nat)
    requires s < |full| && full[s] > 0
    ensures Base(full, s) == Used(full, full[s], |full|) + Same(full, full[s], s) * Pow2(full[s] - 1)
  {
  }

  lemma NoCells(entries: seq<Entry>, full: seq<nat>, max: nat, s: nat)
    requires s < |full| && full[s] == 0 && AtMost(full, max) && Filled(entries, full, max, s)
    ensures Filled(entries, full, max, s + 1)
  {
  }

  /** The entry for the bits ahead. */
  function DecodeSymbol(t: HuffTable, bits: nat): Entry
    requires |t.entries| == Pow2(t.maxBits)
  {
    t.entries[bits % Pow2(t.maxBits)]
  }

  lemma CellByPrefix(t: HuffTable, full: seq<nat>, idx: nat, other: nat)
    requires TableIs(t, full) && idx < Pow2(t.maxBits) && other < Pow2(t.maxBits)
    ensures var e := t.entries[idx];
      && e.symbol < |full| && full[e.symbol] > 0 && 1 <= e.numBits <= t.maxBits
      && (t.entries[other] == e <==> Quot(other, Pow2(t.maxBits - e.numBits)) == Quot(idx, Pow2(t.maxBits - e.numBits)))
  {
    hide Base, Pow2, Used, Complete;
    EndsAt(full, t.maxBits);
    var s := Owner(full, t.maxBits + 1, idx);
    var u := Owner(full, t.maxBits + 1, other);
    Positive(full, s, idx);
    Positive(full, u, other);
    AtMostMax(full, t.maxBits, s);
    AtMostMax(full, t.maxBits, u);
    BlockIsPrefix(full, t.maxBits, s, idx, other);
    if s != u && InBlock(full, s, other) {
      BlocksDisjoint(full, s, u, other);
    }
  }

  lemma InTable(t: HuffTable, i: nat)
    requires |t.entries| == Pow2(t.maxBits) && i < Pow2(t.maxBits)
    ensures DecodeSymbol(t, i) == t.entries[i]
  {
    hide Pow2;
    SmallRest(i, Pow2(t.maxBits));
  }

  lemma SmallRest(v: nat, t: nat)
    requires v < t
    ensures v % t == v
  {
  }

  /** A lookup depends only on the code bits of the symbol found: all bit strings with the same
      leading bits, and no others, decode to it. So the code is complete and prefix-free. */
  lemma LookupByPrefix(t: HuffTable, full: seq<nat>, idx: nat, other: nat)
    requires TableIs(t, full) && idx < Pow2(t.maxBits) && other < Pow2(t.maxBits)
    ensures var e := DecodeSymbol(t, idx);
      && e.symbol < |full| && full[e.symbol] > 0 && 1 <= e.numBits <= t.maxBits
      && (DecodeSymbol(t, other) == e <==>
          Quot(other, Pow2(t.maxBits - e.numBits)) == Quot(idx, Pow2(t.maxBits - e.numBits)))
  {
    hide DecodeSymbol, Pow2, Quot, Complete, InBlock;
    InTable(t, idx);
    InTable(t, other);
    CellByPrefix(t, full, idx, other);
  }

  lemma EndsAt(full: seq<nat>, max: nat)
    requires Complete(full, max)
    ensures Used(full, max + 1, |full|) == Pow2(max)
  {
  }

  lemma AtMostMax(full: seq<nat>, max: nat, s: nat)
    requires Complete(full, max) && s < |full|
    ensures full[s] <= max
  {
  }

  lemma Positive(full: seq<nat>, s: nat, idx: nat)
    requires s < |full| && InBlock(full, s, idx)
    ensures full[s] > 0
  {
  }
}
