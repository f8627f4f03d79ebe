/** From symbol counts to a distribution over a table of 2^log cells. */
module ZstdNormalize {
  import opened Bytes
  import opened ZstdFse

  function Sum(counts: seq<nat>): nat {
    if counts == [] then 0 else Sum(counts[..|counts| - 1]) + counts[|counts| - 1]
  }

  /** A count scaled to the table; -1 for a symbol that occurs but rounds to nothing. */
  function ScaledOne(c: nat, total: nat, size: nat): (p: int)
    requires total > 0
  {
    if c == 0 then 0 else if Quot(c * size, total) == 0 then -1 else Quot(c * size, total)
  }

  function Scaled(counts: seq<nat>, total: nat, size: nat): (r: seq<int>)
    requires total > 0
    ensures |r| == |counts| && forall k :: 0 <= k < |r| ==> r[k] == ScaledOne(counts[k], total, size)
  {
    seq(|counts|, k requires 0 <= k < |counts| => ScaledOne(counts[k], total, size))
  }

  /** The first symbol with the largest count. */
  function Largest(counts: seq<nat>): (l: nat)
    requires counts != []
    ensures l < |counts| && forall k :: 0 <= k < |counts| ==> counts[k] <= counts[l]
  {
    if |counts| == 1 then 0
    else
      var last := |counts| - 1;
      var l := Largest(counts[..last]);
      assert forall k :: 0 <= k < last ==> counts[k] == counts[..last][k];
      if counts[last] > counts[l] then last else l
  }

  /** What is missing, or too much, goes to the symbol with the largest count. */
  function Corrected(counts: seq<nat>, size: nat): int
    requires Sum(counts) > 0
  {
    SumPositive(counts);
    var s := Scaled(counts, Sum(counts), size);
    s[Largest(counts)] + (size - Total(s))
  }

  function Normalized(counts: seq<nat>, size: nat): (r: seq<int>)
    requires Sum(counts) > 0
    ensures |r| == |counts|
  {
    SumPositive(counts);
    var c := Corrected(counts, size);
    Scaled(counts, Sum(counts), size)[Largest(counts) := if c <= 0 then 1 else c]
  }

  lemma SumPositive(counts: seq<nat>)
    ensures Sum(counts) > 0 ==> counts != []
  {
  }

  lemma {:induction false} SumAtMost(counts: seq<nat>, m: nat)
    requires forall k :: 0 <= k < |counts| ==> counts[k] <= m
    ensures Sum(counts) <= |counts| * m
    decreases |counts|
  {
    if counts != [] {
      SumAtMost(counts[..|counts| - 1], m);
      MulAdd(|counts| - 1, 1, m);
    }
  }

  /** The symbol with the largest count never rounds to nothing when there are enough cells. */
  lemma LargestPositive(counts: seq<nat>, size: nat)
    requires Sum(counts) > 0 && size >= |counts|
    ensures counts != [] && Scaled(counts, Sum(counts), size)[Largest(counts)] >= 1
  {
    SumPositive(counts);
    var m, total := counts[Largest(counts)], Sum(counts);
    SumAtMost(counts, m);
    MulMonotone(|counts|, size, m);
    assert m > 0;
    QuotientAtLeast(m * size, total, 1);
  }

  /** Rounding down, the table is not overfilled but for the cells of rounded-up symbols. */
  lemma {:induction false} ScaledTotal(counts: seq<nat>, total: nat, size: nat)
    requires total > 0
    ensures (Total(Scaled(counts, total, size)) - Tops(Scaled(counts, total, size))) * total <= Sum(counts) * size
    decreases |counts|
  {
    if counts != [] {
      var last := |counts| - 1;
      ScaledTotal(counts[..last], total, size);
      var s, s' := Scaled(counts, total, size), Scaled(counts[..last], total, size);
      assert s[..last] == s';
      MulAdd(Sum(counts[..last]), counts[last], size);
      ScaledDown(counts[last], total, size);
      MulAdd(Total(s') - Tops(s'), Floor(s[last]), total);
    }
  }

  function Floor(p: int): nat {
    if p > 0 then p else 0
  }

  lemma ScaledDown(c: nat, total: nat, size: nat)
    requires total > 0
    ensures Floor(ScaledOne(c, total, size)) * total <= c * size
  {
    Division(c * size, total);
  }

  lemma {:induction false} TotalUpdate(probs: seq<int>, k: nat, p: int)
    requires k < |probs| && probs[k] >= 1 && p >= 1
    ensures Total(probs[k := p]) == Total(probs) - probs[k] + p && Tops(probs[k := p]) == Tops(probs)
    decreases |probs|
  {
    var last := |probs| - 1;
    if k < last {
      TotalUpdate(probs[..last], k, p);
      assert probs[k := p][..last] == probs[..last][k := p];
    } else {
      assert probs[k := p][..last] == probs[..last];
    }
  }

  lemma {:induction false} TopsBelow(probs: seq<int>, k: nat)
    requires k < |probs| && probs[k] != -1
    ensures Tops(probs) < |probs|
    decreases |probs|
  {
    var last := |probs| - 1;
    if k < last {
      TopsBelow(probs[..last], k);
    } else {
      TopsAtMost(probs[..last]);
    }
  }

  lemma {:induction false} TopsAtMost(probs: seq<int>)
    ensures Tops(probs) <= |probs|
    decreases |probs|
  {
    if probs != [] {
      TopsAtMost(probs[..|probs| - 1]);
    }
  }

  /** The normalized distribution fills the table exactly unless the correction had to be
      clamped; it then overfills it. */
  lemma FillsUnlessClamped(counts: seq<nat>, size: nat)
    requires Sum(counts) > 0 && size >= |counts|
    ensures Total(Normalized(counts, size)) == size <==> Corrected(counts, size) >= 1
    ensures Total(Normalized(counts, size)) >= size
    ensures Total(Normalized(counts, size)) - Tops(Normalized(counts, size)) <= size
    ensures Tops(Normalized(counts, size)) < |counts|
    ensures Normalized(counts, size)[Largest(counts)] >= 1
  {
    hide Scaled, Largest, Total, Tops, Sum;
    SumPositive(counts);
    LargestPositive(counts, size);
    var total := Sum(counts);
    var s, l := Scaled(counts, total, size), Largest(counts);
    var c := Corrected(counts, size);
    TotalUpdate(s, l, if c <= 0 then 1 else c);
    ScaledTotal(counts, total, size);
    MoreThanTops(s);
    Cancel(Total(s) - Tops(s), size, total);
    TopsBelow(Normalized(counts, size), l);
    MoreThanTops(Normalized(counts, size));
  }

  lemma {:induction false} MoreThanTops(probs: seq<int>)
    ensures Tops(probs) <= Total(probs)
    decreases |probs|
  {
    if probs != [] {
      MoreThanTops(probs[..|probs| - 1]);
    }
  }

  /** Exactly the symbols that occur have cells. */
  lemma CellsForAll(counts: seq<nat>, size: nat, k: nat)
    requires Sum(counts) > 0 && size >= |counts| && k < |counts|
    ensures Weight(Normalized(counts, size)[k]) > 0 <==> counts[k] > 0
    ensures Normalized(counts, size)[k] >= -1
  {
    SumPositive(counts);
    LargestPositive(counts, size);
  }

  /** Such a distribution can be given to the table builder. */
  lemma Buildable(counts: seq<nat>, log: nat)
    requires Sum(counts) > 0 && 2 * (|counts| - 1) < Pow2(log) && |counts| <= Pow2(log)
    ensures var p := Normalized(counts, Pow2(log));
      Tops(p) < Pow2(log) && 0 < |Expand(p)| < 2 * (Pow2(log) - Tops(p))
  {
    hide Normalized, Corrected, Largest, Tops, Total, Expand;
    var p := Normalized(counts, Pow2(log));
    SumPositive(counts);
    FillsUnlessClamped(counts, Pow2(log));
    TotalSplit(p);
    ExpandAt(p, Largest(counts), 0);
  }

  method NormalizeCounts(counts: seq<nat>, maxSymbol: nat, tableLog: nat) returns (probs: seq<int>)
    requires maxSymbol < |counts|
    ensures var c := counts[..maxSymbol + 1];
      probs == if Sum(c) == 0 then Rep<int>(0, maxSymbol + 1) else Normalized(c, Pow2(tableLog))
  {
    hide Total, Largest;
    var tableSize := Pow2(tableLog);
    ghost var cs := counts[..maxSymbol + 1];
    var total := SumUp(counts, maxSymbol + 1);
    if total == 0 {
      return Rep<int>(0, maxSymbol + 1);
    }
    probs := [];
    var distributed: nat := 0;
    var largestIdx: nat, largestCount: nat := 0, 0;
    ghost var s := Scaled(cs, total, tableSize);
    NothingDistributed(s);
    var i: nat := 0;
    while i <= maxSymbol
      invariant i <= maxSymbol + 1 && probs == s[..i] && distributed == Total(s[..i])
      invariant largestIdx <= maxSymbol
      invariant if i == 0 then largestIdx == 0 && largestCount == 0
                else largestIdx == Largest(cs[..i]) && largestCount == counts[largestIdx]
    {
      TotalStep(s, i);
      LargestStep(cs, i);
      if counts[i] == 0 {
        probs := probs + [0];
      } else {
        if counts[i] > largestCount {
          largestCount := counts[i];
          largestIdx := i;
        }
        var prob := Quot(counts[i] * tableSize, total);
        if prob == 0 {
          probs := probs + [-1];
          distributed := distributed + 1;
        } else {
          probs := probs + [prob];
          distributed := distributed + prob;
        }
      }
      i := i + 1;
    }
    assert s[..i] == s && cs[..i] == cs;
    var correction := tableSize - distributed;
    probs := probs[largestIdx := probs[largestIdx] + correction];
    if probs[largestIdx] <= 0 {
      probs := probs[largestIdx := 1];
    }
  }

  lemma NothingDistributed(s: seq<int>)
    ensures Total(s[..0]) == 0
  {
  }

  lemma TotalStep(s: seq<int>, i: nat)
    requires i < |s|
    ensures Total(s[..i + 1]) == Total(s[..i]) + Weight(s[i]) && s[..i + 1] == s[..i] + [s[i]]
  {
    assert s[..i + 1][..i] == s[..i];
  }

  lemma LargestStep(cs: seq<nat>, i: nat)
    requires i < |cs|
    ensures Largest(cs[..i + 1]) == if i == 0 then 0 else
              var l := Largest(cs[..i]); if cs[i] > cs[l] then i else l
  {
    assert cs[..i + 1][..i] == cs[..i];
  }

  method SumUp(counts: seq<nat>, n: nat) returns (total: nat)
    requires n <= |counts|
    ensures total == Sum(counts[..n])
  {
    total := 0;
    var i: nat := 0;
    while i < n
      invariant i <= n && total == Sum(counts[..i])
    {
      assert counts[..i + 1][..i] == counts[..i];
      total := total + counts[i];
      i := i + 1;
    }
  }

  // ----- a histogram for which the table is overfilled -----

  function Skewed(): seq<nat> {
    Rep<nat>(17, 13) + Rep<nat>(1, 20)
  }

  lemma {:induction false} TotalRep(p: int, n: nat, before: seq<int>)
    ensures Total(before + Rep<int>(p, n)) == Total(before) + n * Weight(p)
    decreases n
  {
    if n == 0 {
      assert before + Rep<int>(p, 0) == before;
    } else {
      TotalRep(p, n - 1, before);
      assert (before + Rep<int>(p, n))[..|before| + n - 1] == before + Rep<int>(p, n - 1);
      MulAdd(n - 1, 1, Weight(p));
    }
  }

  lemma {:induction false} SumRep(c: nat, n: nat, before: seq<nat>)
    ensures Sum(before + Rep<nat>(c, n)) == Sum(before) + n * c
    decreases n
  {
    if n == 0 {
      assert before + Rep<nat>(c, 0) == before;
    } else {
      SumRep(c, n - 1, before);
      assert (before + Rep<nat>(c, n))[..|before| + n - 1] == before + Rep<nat>(c, n - 1);
      MulAdd(n - 1, 1, c);
    }
  }

  /** 13 frequent symbols and 20 rare ones in 128 cells: 13 * 9 + 20 = 137 cells are handed out, and
      taking 9 back from a symbol with 9 leaves none. */
  lemma ClampHappens()
    ensures Sum(Skewed()) == 241 && Corrected(Skewed(), 128) == 0
    ensures Total(Normalized(Skewed(), 128)) != 128
  {
    SumRep(17, 13, []);
    assert [] + Rep<nat>(17, 13) == Rep<nat>(17, 13);
    SumRep(1, 20, Rep<nat>(17, 13));
    var s := Scaled(Skewed(), 241, 128);
    assert s == Rep<int>(9, 13) + Rep<int>(-1, 20);
    TotalRep(9, 13, []);
    assert [] + Rep<int>(9, 13) == Rep<int>(9, 13);
    TotalRep(-1, 20, Rep<int>(9, 13));
    var l := Largest(Skewed());
    assert Skewed()[0] <= Skewed()[l];
    FillsUnlessClamped(Skewed(), 128);
  }
}
