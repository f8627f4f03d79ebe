/** The Burrows-Wheeler transform of bzip2 and its inverse.

    Rotations are named by their start. Equal rotations (periodic data) may be sorted in any
    order: nothing below depends on how the sort breaks ties. */
module Bzip2Bwt {
  import opened Bytes

  // ----- rotations and their order -----

  /** Byte `i` of the rotation that starts at `a`. */
  function Ch(d: seq<Byte>, a: nat, i: nat): Byte
    requires d != []
  {
    d[(a + i) % |d|]
  }

  /** Rotation `a` is not after rotation `b`, comparing from offset `i` on. */
  predicate LeFrom(d: seq<Byte>, a: nat, b: nat, i: nat)
    requires d != [] && i <= |d|
    decreases |d| - i
  {
    i == |d| ||
    Ch(d, a, i) < Ch(d, b, i) ||
    (Ch(d, a, i) == Ch(d, b, i) && LeFrom(d, a, b, i + 1))
  }

  predicate Le(d: seq<Byte>, a: nat, b: nat)
    requires d != []
  {
    LeFrom(d, a, b, 0)
  }

  /** The two rotations are the same string. */
  ghost predicate SameRotation(d: seq<Byte>, a: nat, b: nat)
    requires d != []
  {
    SameFrom(d, a, b, 0)
  }

  ghost predicate SameFrom(d: seq<Byte>, a: nat, b: nat, i: nat)
    requires d != []
  {
    forall k: nat :: i <= k < |d| ==> Ch(d, a, k) == Ch(d, b, k)
  }

  lemma {:induction false} LeTotal(d: seq<Byte>, a: nat, b: nat, i: nat)
    requires d != [] && i <= |d|
    ensures LeFrom(d, a, b, i) || LeFrom(d, b, a, i)
    decreases |d| - i
  {
    if i < |d| && Ch(d, a, i) == Ch(d, b, i) {
      LeTotal(d, a, b, i + 1);
    }
  }

  lemma {:induction false} LeTransitive(d: seq<Byte>, a: nat, b: nat, c: nat, i: nat)
    requires d != [] && i <= |d| && LeFrom(d, a, b, i) && LeFrom(d, b, c, i)
    ensures LeFrom(d, a, c, i)
    decreases |d| - i
  {
    if i < |d| && Ch(d, a, i) == Ch(d, b, i) == Ch(d, c, i) {
      LeTransitive(d, a, b, c, i + 1);
    }
  }

  lemma {:induction false} LeAntisymmetric(d: seq<Byte>, a: nat, b: nat, i: nat)
    requires d != [] && i <= |d| && LeFrom(d, a, b, i) && LeFrom(d, b, a, i)
    ensures SameFrom(d, a, b, i)
    decreases |d| - i
  {
    hide Ch;
    if i < |d| {
      LeAntisymmetric(d, a, b, i + 1);
    }
  }

  /** The rotation one to the left. */
  function Before(d: seq<Byte>, a: nat): nat
    requires d != []
  {
    (a + |d| - 1) % |d|
  }

  lemma BeforeAt(d: seq<Byte>, a: nat, i: nat)
    requires d != []
    ensures Ch(d, Before(d, a), i + 1) == Ch(d, a, i)
    ensures Ch(d, Before(d, a), 0) == Ch(d, a, |d| - 1)
  {
    var n := |d|;
    var q := (a + n - 1) / n;
    assert a + n - 1 == q * n + Before(d, a);
    ModShift(a + i, n, Before(d, a) + (i + 1), q - 1);
    ModShift(a + n - 1, n, Before(d, a), q);
  }

  lemma ModShift(x: nat, n: nat, y: nat, q: int)
    requires n > 0 && x == y + q * n
    ensures x % n == y % n
  {
    var a, r := y / n, y % n;
    assert y == a * n + r;
    assert x == (a + q) * n + r by { assert (a + q) * n == a * n + q * n; }
    NotNegative(a + q, n, r);
    DivUnique(x, n, a + q, r);
  }

  lemma NotNegative(a: int, n: nat, r: nat)
    requires r < n && a * n + r >= 0
    ensures a >= 0
  {
    if a <= -1 {
      MulLe(a, -1, n);
      assert false;
    }
  }

  lemma MulLe(a: int, b: int, n: nat)
    requires a <= b
    ensures a * n <= b * n
  {
  }

  /** Prefixing the last column keeps the order: this is the sort the inverse relies on. */
  lemma {:induction false} BeforeLe(d: seq<Byte>, a: nat, b: nat, i: nat)
    requires d != [] && i < |d| && LeFrom(d, a, b, i)
    ensures LeFrom(d, Before(d, a), Before(d, b), i + 1)
    decreases |d| - i
  {
    hide Ch;
    if i + 1 < |d| {
      BeforeAt(d, a, i);
      BeforeAt(d, b, i);
      if Ch(d, a, i) == Ch(d, b, i) {
        BeforeLe(d, a, b, i + 1);
      }
    }
  }

  // ----- permutations -----

  ghost predicate Distinct(s: seq<nat>) {
    forall i, j :: 0 <= i < j < |s| ==> s[i] != s[j]
  }

  ghost predicate Below(s: seq<nat>, n: nat) {
    forall i :: 0 <= i < |s| ==> s[i] < n
  }

  /** Each of 0..n-1 once. */
  ghost predicate Permutation(s: seq<nat>, n: nat) {
    |s| == n && Distinct(s) && Below(s, n)
  }

  ghost function Elements(s: seq<nat>): set<nat> { set x | x in s }

  lemma {:induction false} DistinctSize(s: seq<nat>)
    requires Distinct(s)
    ensures |Elements(s)| == |s|
    decreases |s|
  {
    if s != [] {
      var init, x := s[..|s| - 1], s[|s| - 1];
      DistinctSize(init);
      assert s == init + [x];
      assert Elements(s) == Elements(init) + {x} && x !in Elements(init);
    }
  }

  ghost function Initial(n: nat): (r: set<nat>)
    ensures forall x: nat :: x in r <==> x < n
    ensures |r| == n
  {
    if n == 0 then {} else Initial(n - 1) + {n - 1}
  }

  lemma SubsetSize(a: set<nat>, b: set<nat>)
    requires a <= b
    ensures |a| <= |b| && (|a| == |b| ==> a == b)
  {
    if a != b {
      var c := b - a;
      assert b == a + c && a !! c && c != {};
      assert |b| == |a| + |c|;
    }
  }

  /** No room for more distinct numbers below `n` than `n`. */
  lemma Pigeonhole(s: seq<nat>, n: nat)
    requires Distinct(s) && Below(s, n)
    ensures |s| <= n
  {
    DistinctSize(s);
    assert Elements(s) <= Initial(n);
    SubsetSize(Elements(s), Initial(n));
  }

  /** A permutation takes every value. */
  lemma PermutationOnto(s: seq<nat>, n: nat, v: nat) returns (k: nat)
    requires Permutation(s, n) && v < n
    ensures k < n && s[k] == v
  {
    DistinctSize(s);
    assert Elements(s) <= Initial(n);
    SubsetSize(Elements(s), Initial(n));
    assert v in Elements(s);
    k :| 0 <= k < |s| && s[k] == v;
  }

  // ----- two sortings of the same rotations agree, as strings -----

  ghost predicate Sorted(d: seq<Byte>, s: seq<nat>)
    requires d != []
  {
    forall i, j :: 0 <= i < j < |s| ==> Le(d, s[i], s[j])
  }

  /** If both list all rotations in order, `x[k]` cannot come after `y[k]`. */
  lemma NotAfter(d: seq<Byte>, x: seq<nat>, y: seq<nat>, k: nat)
    requires d != [] && Permutation(x, |d|) && Permutation(y, |d|) && Sorted(d, x) && Sorted(d, y)
    requires k < |d|
    ensures Le(d, y[k], x[k])
  {
    if !Le(d, y[k], x[k]) {
      // y[0..k] are all strictly before... their places in x are all below k
      var places: seq<nat> := [];
      while |places| <= k
        invariant |places| <= k + 1
        invariant forall i :: 0 <= i < |places| ==> places[i] < |d| && x[i] == y[places[i]]
        invariant Below(places, k)
      {
        var i := |places|;
        var h := PermutationOnto(y, |d|, x[i]);
        if h >= k {
          LeReflexive(d, y[k]);
          LeReflexive(d, x[k]);
          assert Le(d, y[k], y[h]) && Le(d, x[i], x[k]);
          LeTransitive(d, y[k], y[h], x[k], 0);
          assert false;
        }
        places := places + [h];
      }
      assert Distinct(places) by {
        forall i, j | 0 <= i < j < |places| ensures places[i] != places[j] {
          assert x[i] != x[j];
        }
      }
      Pigeonhole(places, k);
      assert false;
    }
  }

  lemma {:induction false} LeReflexive(d: seq<Byte>, a: nat)
    requires d != []
    ensures Le(d, a, a)
  {
    LeTotal(d, a, a, 0);
  }

  lemma SortingsAgree(d: seq<Byte>, x: seq<nat>, y: seq<nat>, k: nat)
    requires d != [] && Permutation(x, |d|) && Permutation(y, |d|) && Sorted(d, x) && Sorted(d, y)
    requires k < |d|
    ensures SameRotation(d, x[k], y[k])
  {
    NotAfter(d, x, y, k);
    NotAfter(d, y, x, k);
    LeAntisymmetric(d, x[k], y[k], 0);
  }

  // ----- the transform -----

  ghost predicate SortedRotations(d: seq<Byte>, p: seq<nat>)
    requires d != []
  {
    Permutation(p, |d|) && Sorted(d, p)
  }

  /** The last column of the sorted rotations. */
  function LastColumn(d: seq<Byte>, p: seq<nat>): (l: seq<Byte>)
    requires d != []
    ensures |l| == |p|
  {
    seq(|p|, i requires 0 <= i < |p| => Ch(d, p[i], |d| - 1))
  }

  // ----- the inverse -----

  /** `t` lists the positions of `l` sorted by byte, equal bytes in their order in `l`. */
  ghost predicate StableSort(l: seq<Byte>, t: seq<nat>) {
    && Permutation(t, |l|)
    && forall j, k :: 0 <= j < k < |l| ==> l[t[j]] < l[t[k]] || (l[t[j]] == l[t[k]] && t[j] < t[k])
  }

  /** `n` bytes read from the first column by following `t`. */
  function Walk(f: seq<Byte>, t: seq<nat>, idx: nat, n: nat): seq<Byte>
    requires |f| == |t| && idx < |t|
    requires forall k :: 0 <= k < |t| ==> t[k] < |t|
    decreases n
  {
    if n == 0 then [] else [f[idx]] + Walk(f, t, t[idx], n - 1)
  }

  /** Row `j` of the sorted rotations is row `t[j]` with its last byte moved to the front. */
  lemma RowBefore(d: seq<Byte>, p: seq<nat>, t: seq<nat>, j: nat)
    requires d != [] && SortedRotations(d, p) && StableSort(LastColumn(d, p), t) && j < |d|
    ensures SameRotation(d, p[j], Before(d, p[t[j]]))
  {
    var n := |d|;
    var y := seq(n, k requires 0 <= k < n => Before(d, p[t[k]]));
    forall a, b | 0 <= a < b < n ensures Le(d, y[a], y[b]) {
      RowsOrdered(d, p, t, a, b);
    }
    forall a, b | 0 <= a < b < n ensures y[a] != y[b] {
      assert p[t[a]] != p[t[b]];
      BeforeInjective(d, p[t[a]], p[t[b]]);
    }
    SortingsAgree(d, p, y, j);
  }

  lemma BeforeInjective(d: seq<Byte>, a: nat, b: nat)
    requires d != [] && a < |d| && b < |d| && a != b
    ensures Before(d, a) != Before(d, b)
  {
    var n := |d|;
    if a > 0 { DivUnique(a + n - 1, n, 1, a - 1); } else { DivUnique(a + n - 1, n, 0, n - 1); }
    if b > 0 { DivUnique(b + n - 1, n, 1, b - 1); } else { DivUnique(b + n - 1, n, 0, n - 1); }
  }

  lemma RowsOrdered(d: seq<Byte>, p: seq<nat>, t: seq<nat>, a: nat, b: nat)
    requires d != [] && SortedRotations(d, p) && StableSort(LastColumn(d, p), t) && a < b < |d|
    ensures Le(d, Before(d, p[t[a]]), Before(d, p[t[b]]))
  {
    var x, y := p[t[a]], p[t[b]];
    var l := LastColumn(d, p);
    BeforeAt(d, x, 0);
    BeforeAt(d, y, 0);
    assert l[t[a]] == Ch(d, Before(d, x), 0) && l[t[b]] == Ch(d, Before(d, y), 0);
    if l[t[a]] == l[t[b]] {
      assert Le(d, x, y);
      BeforeLe(d, x, y, 0);
    }
  }

  /** Following `t` from a row equal to rotation `r` leads to a row equal to rotation `r + 1`,
      ties or not. */
  lemma NextRow(d: seq<Byte>, p: seq<nat>, t: seq<nat>, j: nat, r: nat)
    requires d != [] && SortedRotations(d, p) && StableSort(LastColumn(d, p), t) && j < |d|
    requires SameRotation(d, p[j], r)
    ensures SameRotation(d, p[t[j]], r + 1)
  {
    hide Ch;
    RowBefore(d, p, t, j);
    var x := p[t[j]];
    forall i: nat | i < |d| ensures Ch(d, x, i) == Ch(d, r + 1, i) {
      BeforeAt(d, x, i);
      if i + 1 < |d| {
        assert Ch(d, p[j], i + 1) == Ch(d, Before(d, x), i + 1);
        assert Ch(d, p[j], i + 1) == Ch(d, r, i + 1);
        ChNext(d, r, i);
      } else {
        assert Ch(d, p[j], 0) == Ch(d, Before(d, x), 0);
        assert Ch(d, p[j], 0) == Ch(d, r, 0);
        ChWraps(d, r);
      }
    }
  }

  lemma ChNext(d: seq<Byte>, r: nat, i: nat)
    requires d != []
    ensures Ch(d, r, i + 1) == Ch(d, r + 1, i)
  {
    assert r + (i + 1) == r + 1 + i;
  }

  lemma ChWraps(d: seq<Byte>, r: nat)
    requires d != []
    ensures Ch(d, r + 1, |d| - 1) == Ch(d, r, 0)
  {
    ModShift(r + |d|, |d|, r, 1);
  }

  /** The first column, row by row. */
  ghost predicate FirstColumn(d: seq<Byte>, p: seq<nat>, f: seq<Byte>)
    requires d != []
  {
    |f| == |p| && forall j :: 0 <= j < |p| ==> f[j] == Ch(d, p[j], 0)
  }

  /** The k-th row visited holds a rotation equal to rotation k of the data. */
  lemma {:induction false} WalkRebuilds(d: seq<Byte>, p: seq<nat>, t: seq<nat>, f: seq<Byte>, idx: nat, r: nat)
    requires d != [] && SortedRotations(d, p) && StableSort(LastColumn(d, p), t) && FirstColumn(d, p, f)
    requires idx < |d| && r <= |d| && SameRotation(d, p[idx], r)
    ensures Walk(f, t, idx, |d| - r) == d[r..]
    decreases |d| - r
  {
    hide Ch;
    if r < |d| {
      NextRow(d, p, t, idx, r);
      WalkRebuilds(d, p, t, f, t[idx], r + 1);
      assert Ch(d, p[idx], 0) == Ch(d, r, 0);
      ChFirst(d, r);
      assert d[r..] == [d[r]] + d[r + 1..];
    }
  }

  lemma ChFirst(d: seq<Byte>, r: nat)
    requires r < |d|
    ensures Ch(d, r, 0) == d[r]
  {
    DivUnique(r, |d|, 0, r);
  }

  /** Read through `t`, the last column is the first column. */
  lemma LastGivesFirst(d: seq<Byte>, p: seq<nat>, t: seq<nat>, j: nat)
    requires d != [] && SortedRotations(d, p) && StableSort(LastColumn(d, p), t) && j < |d|
    ensures LastColumn(d, p)[t[j]] == Ch(d, p[j], 0)
  {
    RowBefore(d, p, t, j);
    BeforeAt(d, p[t[j]], 0);
    assert Ch(d, p[j], 0) == Ch(d, Before(d, p[t[j]]), 0);
  }

  // ----- the sorts -----

  /** The comparator handed to the sort: -1, 0 or 1. */
  method CompareRotations(d: seq<Byte>, a: nat, b: nat) returns (c: int)
    requires d != []
    ensures c <= 0 <==> Le(d, a, b)
    ensures c >= 0 <==> Le(d, b, a)
  {
    hide Ch;
    var i := 0;
    while i < |d|
      invariant i <= |d|
      invariant Le(d, a, b) == LeFrom(d, a, b, i) && Le(d, b, a) == LeFrom(d, b, a, i)
    {
      var ca, cb := Ch(d, a, i), Ch(d, b, i);
      if ca != cb {
        return if ca < cb then -1 else 1;
      }
      i := i + 1;
    }
    return 0;
  }

  /** Puts `v` behind the rotations that are not after it. */
  method InsertRotation(d: seq<Byte>, s: seq<nat>, v: nat) returns (r: seq<nat>)
    requires d != [] && Sorted(d, s) && Distinct(s) && Below(s, v)
    ensures Sorted(d, r) && Distinct(r) && Below(r, v + 1) && |r| == |s| + 1
  {
    var k: nat := |s|;
    while k > 0
      invariant k <= |s|
      invariant forall h :: k <= h < |s| ==> Le(d, v, s[h])
    {
      var c := CompareRotations(d, s[k - 1], v);
      if c <= 0 {
        break;
      }
      k := k - 1;
    }
    forall h | 0 <= h < k ensures Le(d, s[h], v) {
      if h < k - 1 {
        LeTransitive(d, s[h], s[k - 1], v, 0);
      }
    }
    r := s[..k] + [v] + s[k..];
  }

  /** The rotations in order. Any order of equal rotations would do. */
  method SortRotations(d: seq<Byte>) returns (p: seq<nat>)
    requires d != []
    ensures SortedRotations(d, p)
  {
    p := [];
    var v := 0;
    while v < |d|
      invariant v == |p| <= |d|
      invariant Sorted(d, p) && Distinct(p) && Below(p, v)
    {
      p := InsertRotation(d, p, v);
      v := v + 1;
    }
  }

  /** Last column and the row of the data itself. */
  method BwtTransform(d: seq<Byte>) returns (output: seq<Byte>, origin: nat, ghost p: seq<nat>)
    ensures d == [] ==> output == [] && origin == 0
    ensures d != [] ==> SortedRotations(d, p) && output == LastColumn(d, p) && origin < |d| && p[origin] == 0
  {
    if d == [] {
      return [], 0, [];
    }
    var n := |d|;
    var indices := SortRotations(d);
    p := indices;
    output, origin := [], 0;
    ghost var k := PermutationOnto(p, n, 0);
    var i := 0;
    while i < n
      invariant i <= n && |output| == i
      invariant forall h :: 0 <= h < i ==> output[h] == Ch(d, p[h], n - 1)
      invariant origin < n && (k < i ==> p[origin] == 0)
    {
      var idx := indices[i];
      output := output + [d[(idx + n - 1) % n]];
      if idx == 0 {
        origin := i;
      }
      i := i + 1;
    }
  }

  // ----- counting sort -----

  /** Occurrences of `b` among the first `i` bytes. */
  function CountTo(l: seq<Byte>, b: int, i: nat): (c: nat)
    requires i <= |l|
    ensures c <= i
  {
    if i == 0 then 0 else CountTo(l, b, i - 1) + (if l[i - 1] == b then 1 else 0)
  }

  /** Bytes less than `b` among the first `i`. */
  function CountLess(l: seq<Byte>, b: int, i: nat): nat
    requires i <= |l|
  {
    if i == 0 then 0 else CountLess(l, b, i - 1) + (if l[i - 1] < b then 1 else 0)
  }

  lemma {:induction false} CountLessNext(l: seq<Byte>, b: int, i: nat)
    requires i <= |l|
    ensures CountLess(l, b + 1, i) == CountLess(l, b, i) + CountTo(l, b, i)
    decreases i
  {
    if i > 0 {
      CountLessNext(l, b, i - 1);
    }
  }

  lemma {:induction false} CountLessEnds(l: seq<Byte>, i: nat)
    requires i <= |l|
    ensures CountLess(l, 0, i) == 0 && CountLess(l, 256, i) == i
    decreases i
  {
    if i > 0 {
      CountLessEnds(l, i - 1);
    }
  }

  lemma {:induction false} CountLessMonotone(l: seq<Byte>, b: int, c: int, i: nat)
    requires i <= |l| && b <= c
    ensures CountLess(l, b, i) <= CountLess(l, c, i)
    decreases i
  {
    if i > 0 {
      CountLessMonotone(l, b, c, i - 1);
    }
  }

  lemma {:induction false} CountToMonotone(l: seq<Byte>, b: int, i: nat, k: nat)
    requires i <= k <= |l|
    ensures CountTo(l, b, i) <= CountTo(l, b, k)
    decreases k
  {
    if i < k {
      CountToMonotone(l, b, i, k - 1);
    }
  }

  /** Where the counting sort puts position `i`. */
  function Slot(l: seq<Byte>, i: nat): nat
    requires i < |l|
  {
    CountLess(l, l[i], |l|) + CountTo(l, l[i], i)
  }

  /** The slot of `i` lies in the block of its byte. */
  lemma SlotInBlock(l: seq<Byte>, i: nat)
    requires i < |l|
    ensures CountLess(l, l[i], |l|) <= Slot(l, i) < CountLess(l, l[i] as int + 1, |l|) <= |l|
  {
    CountToMonotone(l, l[i], i + 1, |l|);
    CountLessNext(l, l[i], |l|);
    CountLessMonotone(l, l[i] as int + 1, 256, |l|);
    CountLessEnds(l, |l|);
  }

  /** Slots follow the order by byte, then by position. */
  lemma SlotOrder(l: seq<Byte>, i: nat, k: nat)
    requires i < |l| && k < |l|
    requires l[i] < l[k] || (l[i] == l[k] && i < k)
    ensures Slot(l, i) < Slot(l, k)
  {
    SlotInBlock(l, i);
    SlotInBlock(l, k);
    if l[i] < l[k] {
      CountLessMonotone(l, l[i] as int + 1, l[k], |l|);
    } else {
      CountToMonotone(l, l[i], i + 1, k);
    }
  }

  lemma SlotsPermute(l: seq<Byte>)
    ensures Permutation(seq(|l|, i requires 0 <= i < |l| => Slot(l, i)), |l|)
  {
    var s := seq(|l|, i requires 0 <= i < |l| => Slot(l, i));
    forall i | 0 <= i < |l| ensures s[i] < |l| {
      SlotInBlock(l, i);
    }
    forall i, k | 0 <= i < k < |l| ensures s[i] != s[k] {
      if l[k] < l[i] { SlotOrder(l, k, i); } else { SlotOrder(l, i, k); }
    }
  }

  /** Filling every slot gives the stable sort. */
  lemma FilledIsStable(l: seq<Byte>, t: seq<nat>)
    requires |t| == |l|
    requires forall i :: 0 <= i < |l| ==> Slot(l, i) < |t| && t[Slot(l, i)] == i
    ensures StableSort(l, t)
  {
    var s := seq(|l|, i requires 0 <= i < |l| => Slot(l, i));
    SlotsPermute(l);
    forall j | 0 <= j < |l| ensures t[j] < |l| && Slot(l, t[j]) == j {
      var i := PermutationOnto(s, |l|, j);
      assert Slot(l, i) == j;
    }
    forall j, k | 0 <= j < k < |l|
      ensures t[j] != t[k]
      ensures l[t[j]] < l[t[k]] || (l[t[j]] == l[t[k]] && t[j] < t[k])
    {
      assert Slot(l, t[j]) == j && Slot(l, t[k]) == k;
      if l[t[k]] < l[t[j]] || (l[t[k]] == l[t[j]] && t[k] < t[j]) {
        SlotOrder(l, t[k], t[j]);
      }
    }
  }

  ghost predicate Ascending(s: seq<Byte>) {
    forall i, j :: 0 <= i < j < |s| ==> s[i] <= s[j]
  }

  lemma {:induction false} CountIsMultiplicity(l: seq<Byte>, b: Byte)
    ensures CountTo(l, b, |l|) == multiset(l)[b]
    decreases |l|
  {
    if l != [] {
      var init := l[..|l| - 1];
      assert l == init + [l[|l| - 1]];
      CountIsMultiplicity(init, b);
      CountToPrefix(init, l, b, |init|);
    }
  }

  lemma {:induction false} CountToPrefix(a: seq<Byte>, l: seq<Byte>, b: int, i: nat)
    requires i <= |a| <= |l| && forall k :: 0 <= k < i ==> a[k] == l[k]
    ensures CountTo(a, b, i) == CountTo(l, b, i)
    decreases i
  {
    if i > 0 {
      CountToPrefix(a, l, b, i - 1);
    }
  }

  lemma {:induction false} SameCountLess(a: seq<Byte>, l: seq<Byte>, b: nat)
    requires multiset(a) == multiset(l) && b <= 256
    ensures CountLess(a, b, |a|) == CountLess(l, b, |l|)
    decreases b
  {
    if b == 0 {
      CountLessEnds(a, |a|);
      CountLessEnds(l, |l|);
    } else {
      SameCountLess(a, l, b - 1);
      CountLessNext(a, b - 1, |a|);
      CountLessNext(l, b - 1, |l|);
      CountIsMultiplicity(a, b - 1);
      CountIsMultiplicity(l, b - 1);
    }
  }

  /** In an ascending list, byte `f[j]` owns index `j`: at most `j` bytes are less than it. */
  lemma {:induction false} AscendingBlock(f: seq<Byte>, j: nat, i: nat)
    requires Ascending(f) && j < |f| && i <= |f|
    ensures CountLess(f, f[j], i) <= j
    ensures i > j ==> CountLess(f, f[j] as int + 1, i) > j
    ensures CountLess(f, f[j] as int + 1, i) >= (if i <= j then i else j + 1)
    decreases i
  {
    if i > 0 {
      AscendingBlock(f, j, i - 1);
      if i - 1 <= j {
        LessAtMost(f, f[j], i - 1);
      }
    }
  }

  lemma {:induction false} LessAtMost(f: seq<Byte>, b: int, i: nat)
    requires i <= |f|
    ensures CountLess(f, b, i) <= i
    decreases i
  {
    if i > 0 {
      LessAtMost(f, b, i - 1);
    }
  }

  /** The bytes in ascending order are those the stable sort reads. */
  lemma SortedIsThroughT(l: seq<Byte>, f: seq<Byte>, t: seq<nat>, j: nat)
    requires Ascending(f) && multiset(f) == multiset(l) && |f| == |l| && j < |l|
    requires |t| == |l| && t[j] < |l| && Slot(l, t[j]) == j
    ensures f[j] == l[t[j]]
  {
    var b, c := f[j], l[t[j]];
    SlotInBlock(l, t[j]);
    AscendingBlock(f, j, |f|);
    SameCountLess(f, l, b);
    SameCountLess(f, l, b as int + 1);
    if b < c {
      CountLessMonotone(l, b as int + 1, c, |l|);
    } else if c < b {
      CountLessMonotone(l, c as int + 1, b, |l|);
    }
  }

  /** Puts `v` behind the bytes not greater than it. */
  method InsertByte(s: seq<Byte>, v: Byte) returns (r: seq<Byte>)
    requires Ascending(s)
    ensures Ascending(r) && multiset(r) == multiset(s) + multiset{v}
  {
    var k: nat := |s|;
    while k > 0 && s[k - 1] > v
      invariant k <= |s|
      invariant forall h :: k <= h < |s| ==> v < s[h]
    {
      k := k - 1;
    }
    Inserted(s, k, v);
    r := s[..k] + [v] + s[k..];
  }

  lemma Inserted(s: seq<Byte>, k: nat, v: Byte)
    requires k <= |s|
    ensures multiset(s[..k] + [v] + s[k..]) == multiset(s) + multiset{v}
  {
    assert s == s[..k] + s[k..];
  }

  method SortBytes(l: seq<Byte>) returns (f: seq<Byte>)
    ensures Ascending(f) && multiset(f) == multiset(l) && |f| == |l|
  {
    f := [];
    var i := 0;
    while i < |l|
      invariant i <= |l| && |f| == i
      invariant Ascending(f) && multiset(f) == multiset(l[..i])
    {
      assert l[..i + 1] == l[..i] + [l[i]];
      f := InsertByte(f, l[i]);
      assert |multiset(f)| == i + 1;
      i := i + 1;
    }
    assert l[..i] == l;
  }

  /** The transformation vector, by counting sort. */
  method BuildTransform(l: seq<Byte>) returns (transform: array<nat>)
    ensures fresh(transform) && transform.Length == |l| && StableSort(l, transform[..])
    ensures forall j :: 0 <= j < |l| ==> transform[j] < |l| && Slot(l, transform[j]) == j
  {
    var n := |l|;
    var count := new nat[256](_ => 0);
    var i := 0;
    while i < n
      invariant i <= n
      invariant forall b :: 0 <= b < 256 ==> count[b] == CountTo(l, b, i)
    {
      count[l[i]] := count[l[i]] + 1;
      i := i + 1;
    }
    var cumsum := new nat[256](_ => 0);
    var sum := 0;
    CountLessEnds(l, n);
    i := 0;
    while i < 256
      invariant i <= 256 && sum == CountLess(l, i, n)
      invariant forall b :: 0 <= b < 256 ==> count[b] == CountTo(l, b, n)
      invariant forall b :: 0 <= b < i ==> cumsum[b] == CountLess(l, b, n)
    {
      CountLessNext(l, i, n);
      cumsum[i] := sum;
      sum := sum + count[i];
      i := i + 1;
    }
    transform := new nat[n](_ => 0);
    var count2 := new nat[256](_ => 0);
    i := 0;
    while i < n
      invariant i <= n
      invariant forall b :: 0 <= b < 256 ==> cumsum[b] == CountLess(l, b, n)
      invariant forall b :: 0 <= b < 256 ==> count2[b] == CountTo(l, b, i)
      invariant forall k :: 0 <= k < i ==> Slot(l, k) < n && transform[Slot(l, k)] == k
    {
      var b := l[i];
      SlotInBlock(l, i);
      forall k | 0 <= k < i ensures Slot(l, k) != Slot(l, i) {
        if l[i] < l[k] { SlotOrder(l, i, k); } else { SlotOrder(l, k, i); }
      }
      transform[cumsum[b] + count2[b]] := i;
      count2[b] := count2[b] + 1;
      i := i + 1;
    }
    FilledIsStable(l, transform[..]);
    forall j | 0 <= j < n ensures transform[j] < n && Slot(l, transform[j]) == j {
      SlotOfFilled(l, transform[..], j);
    }
  }

  lemma SlotOfFilled(l: seq<Byte>, t: seq<nat>, j: nat)
    requires |t| == |l| && j < |l|
    requires forall i :: 0 <= i < |l| ==> Slot(l, i) < |t| && t[Slot(l, i)] == i
    ensures t[j] < |l| && Slot(l, t[j]) == j
  {
    var s := seq(|l|, i requires 0 <= i < |l| => Slot(l, i));
    SlotsPermute(l);
    var i := PermutationOnto(s, |l|, j);
  }

  /** The bytes of `l` that a walk reads, whatever `l` is: always |l| bytes of `l`. An origin
      outside the data is an index out of bounds in the original, here `None`. */
  method BwtInverse(l: seq<Byte>, origin: nat) returns (r: Option<seq<Byte>>)
    ensures l == [] ==> r == Some([])
    ensures l != [] && origin >= |l| ==> r == None
    ensures l != [] && origin < |l| ==> r.Some? && |r.value| == |l| && forall k :: 0 <= k < |l| ==> r.value[k] in l
    ensures l != [] && origin < |l| ==>
              exists t :: StableSort(l, t) && r == Some(Walk(ThroughT(l, t), t, origin, |l|))
  {
    if l == [] {
      return Some([]);
    }
    var n := |l|;
    var transform := BuildTransform(l);
    var sorted := SortBytes(l);
    ghost var t := transform[..];
    forall j | 0 <= j < n ensures sorted[j] == l[t[j]] {
      SortedIsThroughT(l, sorted, t, j);
    }
    assert sorted == ThroughT(l, t);
    if origin >= n {
      return None;
    }
    var output: seq<Byte> := [];
    var idx: nat := origin;
    var k: nat := 0;
    while k < n
      invariant k <= n && idx < n && |output| == k && transform[..] == t
      invariant output + Walk(sorted, t, idx, n - k) == Walk(sorted, t, origin, n)
      invariant forall h :: 0 <= h < k ==> output[h] in l
    {
      assert output + ([sorted[idx]] + Walk(sorted, t, t[idx], n - k - 1))
             == output + [sorted[idx]] + Walk(sorted, t, t[idx], n - k - 1);
      assert sorted[idx] == l[t[idx]];
      output := output + [sorted[idx]];
      idx := transform[idx];
      k := k + 1;
    }
    assert output + [] == output;
    r := Some(output);
  }

  /** The first column, read out of the last. */
  function ThroughT(l: seq<Byte>, t: seq<nat>): (f: seq<Byte>)
    requires |t| == |l| && forall k :: 0 <= k < |t| ==> t[k] < |l|
    ensures |f| == |l|
  {
    seq(|l|, j requires 0 <= j < |l| => l[t[j]])
  }

  /** Inverting the last column from the right row gives the data back, periodic or not. */
  lemma InverseOfTransform(d: seq<Byte>, p: seq<nat>, origin: nat, t: seq<nat>)
    requires d != [] && SortedRotations(d, p) && origin < |d| && p[origin] == 0
    requires StableSort(LastColumn(d, p), t)
    ensures Walk(ThroughT(LastColumn(d, p), t), t, origin, |d|) == d
  {
    var f := ThroughT(LastColumn(d, p), t);
    forall j | 0 <= j < |d| ensures f[j] == Ch(d, p[j], 0) {
      LastGivesFirst(d, p, t, j);
    }
    WalkRebuilds(d, p, t, f, origin, 0);
    assert d[0..] == d;
  }

  /** bwt_inverse(bwt_transform(d)) == d. */
  method BwtRoundTrip(d: seq<Byte>) returns (back: Option<seq<Byte>>)
    ensures back == Some(d)
  {
    var l, origin, p := BwtTransform(d);
    back := BwtInverse(l, origin);
    if d != [] {
      ghost var t :| StableSort(l, t) && back == Some(Walk(ThroughT(l, t), t, origin, |l|));
      InverseOfTransform(d, p, origin, t);
    }
  }
}
