/** Finite State Entropy tables (section 4.1 of RFC 8878): how the decoding table is filled, and
    why every state can be reached from exactly one cell of every symbol. */
module ZstdFse {
  import opened Bytes

  /** One cell of a decoding table. */
  datatype Entry = Entry(symbol: nat, numBits: nat, baseline: nat)

  datatype Table = Table(entries: seq<Entry>, log: nat)

  // ----- distributions -----

  /** The number of cells of a symbol; probability -1 stands for "less than one". */
  function Weight(p: int): nat {
    if p == -1 then 1 else if p > 0 then p else 0
  }

  function Total(probs: seq<int>): nat {
    if probs == [] then 0 else Total(probs[..|probs| - 1]) + Weight(probs[|probs| - 1])
  }

  /** How many symbols have probability -1. */
  function Tops(probs: seq<int>): nat {
    if probs == [] then 0 else Tops(probs[..|probs| - 1]) + (if probs[|probs| - 1] == -1 then 1 else 0)
  }

  /** The symbols with positive probability, each as often as it has cells. */
  function Expand(probs: seq<int>): seq<nat> {
    if probs == [] then []
    else
      var last := |probs| - 1;
      Expand(probs[..last]) + (if probs[last] > 0 then Rep<nat>(last, probs[last]) else [])
  }

  lemma {:induction false} TotalSplit(probs: seq<int>)
    ensures Total(probs) == Tops(probs) + |Expand(probs)|
    decreases |probs|
  {
    if probs != [] {
      TotalSplit(probs[..|probs| - 1]);
    }
  }

  lemma {:induction false} ExpandSymbols(probs: seq<int>, i: nat)
    requires i < |Expand(probs)|
    ensures Expand(probs)[i] < |probs| && probs[Expand(probs)[i]] > 0
    decreases |probs|
  {
    var last := |probs| - 1;
    if i < |Expand(probs[..last])| {
      ExpandSymbols(probs[..last], i);
    }
  }

  /** The part of the expansion that belongs to symbol `s`. */
  lemma {:induction false} ExpandAt(probs: seq<int>, s: nat, c: nat)
    requires s < |probs| && c < probs[s]
    ensures |Expand(probs[..s])| + c < |Expand(probs)| && Expand(probs)[|Expand(probs[..s])| + c] == s
    decreases |probs|
  {
    var last := |probs| - 1;
    if s < last {
      ExpandAt(probs[..last], s, c);
      assert probs[..last][..s] == probs[..s];
    }
  }

  // ----- the walk over the table -----

  function Step(size: nat): nat {
    size / 2 + size / 8 + 3
  }

  /** The cell the walk is at after `k` steps. */
  function Raw(al: nat, k: nat): (p: nat)
    ensures p < Pow2(al)
  {
    k * Step(Pow2(al)) % Pow2(al)
  }

  /** Logs for which the step is odd; the format uses no others. */
  predicate GoodLog(al: nat) {
    al == 0 || 5 <= al <= 15
  }

  lemma StepOdd(al: nat)
    requires GoodLog(al)
    ensures Step(Pow2(al)) % 2 == 1
  {
    if al >= 5 {
      hide Step, Pow2;
      Pow2Add(al - 4, 4);
      Sixteen();
      StepOf(Pow2(al - 4));
    }
  }

  lemma Sixteen()
    ensures Pow2(4) == 16
  {
  }

  lemma StepOf(q: nat)
    ensures Step(q * 16) == 2 * (5 * q + 1) + 1
  {
  }

  lemma ModUnique(a: nat, q: nat, t: nat)
    requires t > 0
    ensures (a + q * t) % t == a % t
  {
    var q', r := a / t, a % t;
    assert a == q' * t + r;
    MulAdd(q', q, t);
    DivUnique(a + q * t, t, q' + q, r);
  }

  /** Only the remainder of a factor matters. */
  lemma ModMul(x: nat, y: nat, t: nat)
    requires t > 0
    ensures (x % t) * y % t == x * y % t
  {
    var q, r := x / t, x % t;
    assert x == r + q * t;
    MulAdd(r, q * t, y);
    assert (q * t) * y == (q * y) * t;
    ModUnique(r * y, q * y, t);
  }

  predicate Inverts(s: nat, u: nat, t: nat)
    requires t > 0
  {
    s * u % t == 1 % t
  }

  /** An odd number has an inverse modulo every power of two. */
  function Inverse(s: nat, al: nat): nat {
    if al == 0 then 0
    else
      var u := Inverse(s, al - 1);
      if Inverts(s, u, Pow2(al)) then u else u + Pow2(al - 1)
  }

  lemma {:induction false} InverseWorks(s: nat, al: nat)
    requires s % 2 == 1
    ensures Inverts(s, Inverse(s, al), Pow2(al))
    decreases al
  {
    if al == 1 {
      assert Pow2(1) == 2 && Pow2(0) == 1;
      assert Inverse(s, 0) == 0;
    } else if al > 1 {
      hide Inverts;
      InverseWorks(s, al - 1);
      InverseStep(s, Inverse(s, al - 1), Pow2(al - 1));
    }
  }

  lemma Division(x: nat, t: nat)
    requires t > 0
    ensures x == Quot(x, t) * t + x % t
  {
  }

  lemma InverseStep(s: nat, u: nat, t: nat)
    requires s % 2 == 1 && t >= 2 && Inverts(s, u, t)
    ensures Inverts(s, u, 2 * t) || Inverts(s, u + t, 2 * t)
  {
    Division(s * u, t);
    EitherWay(s, u, t, Quot(s * u, t));
    assert 1 % (2 * t) == 1;
  }

  lemma EitherWay(s: nat, u: nat, t: nat, q: nat)
    requires s % 2 == 1 && t >= 2 && s * u == q * t + 1
    ensures s * u % (2 * t) == 1 || s * (u + t) % (2 * t) == 1
  {
    if q % 2 == 0 {
      Halve(q, t);
      RemainderOne(s * u, t, q / 2);
    } else {
      SecondTry(s, u, t, q);
      Halve(q + s, t);
      RemainderOne(s * (u + t), t, (q + s) / 2);
    }
  }

  lemma SecondTry(s: nat, u: nat, t: nat, q: nat)
    requires s * u == q * t + 1
    ensures s * (u + t) == (q + s) * t + 1
  {
  }

  lemma RemainderOne(v: nat, t: nat, h: nat)
    requires t > 0 && v == h * (2 * t) + 1
    ensures v % (2 * t) == 1
  {
    DivUnique(v, 2 * t, h, 1);
  }

  lemma Halve(q: nat, t: nat)
    requires q % 2 == 0
    ensures q * t == (q / 2) * (2 * t)
  {
    MulAssoc(q / 2, 2, t);
  }

  /** The step at which the walk is at cell `p`. */
  function Index(al: nat, p: nat): (j: nat)
    ensures j < Pow2(al)
  {
    p * Inverse(Step(Pow2(al)), al) % Pow2(al)
  }

  /** Congruence modulo `t`. */
  predicate Same(a: nat, b: nat, t: nat)
    requires t > 0
  {
    a % t == b % t
  }

  lemma SameMul(a: nat, b: nat, c: nat, t: nat)
    requires t > 0 && Same(a, b, t)
    ensures Same(a * c, b * c, t)
  {
    ModMul(a, c, t);
    ModMul(b, c, t);
  }

  lemma SameRest(a: nat, t: nat)
    requires t > 0
    ensures Same(a % t, a, t) && (a < t ==> a % t == a)
  {
  }

  lemma SameTrans(a: nat, b: nat, c: nat, t: nat)
    requires t > 0 && Same(a, b, t) && Same(b, c, t)
    ensures Same(a, c, t)
  {
  }

  lemma SameIs(a: nat, x: nat, t: nat)
    requires t > 0 && Same(a, x, t) && x < t
    ensures a % t == x
  {
  }

  lemma InvertsSame(s: nat, u: nat, t: nat)
    requires t > 0 && Inverts(s, u, t)
    ensures Same(s * u, 1, t)
  {
  }

  lemma Swap3(x: nat, s: nat, u: nat)
    ensures x * s * u == s * u * x && 1 * x == x
  {
  }

  lemma ModInverse(x: nat, s: nat, u: nat, t: nat)
    requires t > 0 && x < t && Inverts(s, u, t)
    ensures (x * s % t) * u % t == x
  {
    hide Same, Inverts;
    SameRest(x * s, t);
    SameMul(x * s % t, x * s, u, t);
    Swap3(x, s, u);
    InvertsSame(s, u, t);
    SameMul(s * u, 1, x, t);
    SameTrans((x * s % t) * u, x * s * u, x, t);
    SameIs((x * s % t) * u, x, t);
  }

  lemma IndexOf(al: nat, x: nat)
    requires GoodLog(al) && x < Pow2(al)
    ensures Raw(al, Index(al, x)) == x && Index(al, Raw(al, x)) == x
  {
    hide Inverse, Pow2, Step;
    var t, s := Pow2(al), Step(Pow2(al));
    var u := Inverse(s, al);
    StepOdd(al);
    InverseWorks(s, al);
    assert s * u == u * s;
    ModInverse(x, s, u, t);
    ModInverse(x, u, s, t);
  }

  lemma RawZero(al: nat)
    ensures Raw(al, 0) == 0
  {
  }

  lemma RawWraps(al: nat, k: nat)
    ensures Raw(al, Pow2(al) + k) == Raw(al, k)
  {
    var t, s := Pow2(al), Step(Pow2(al));
    MulAdd(t, k, s);
    ModUnique(k * s, s, t);
  }

  /** How many of the first `k` places of the walk are at most `high`. */
  function Allowed(al: nat, high: nat, k: nat): nat {
    if k == 0 then 0 else Allowed(al, high, k - 1) + (if Raw(al, k - 1) <= high then 1 else 0)
  }

  lemma {:induction false} AllowedMonotone(al: nat, high: nat, j: nat, k: nat)
    requires j <= k
    ensures Allowed(al, high, j) <= Allowed(al, high, k)
    decreases k
  {
    if j < k {
      AllowedMonotone(al, high, j, k - 1);
    }
  }

  lemma {:induction false} AllowedZero(al: nat, k: nat)
    requires GoodLog(al) && k <= Pow2(al)
    ensures Allowed(al, 0, k) == if k > 0 then 1 else 0
    decreases k
  {
    hide Raw, Index;
    if k > 0 {
      AllowedZero(al, k - 1);
      IndexOf(al, k - 1);
      IndexOf(al, 0);
      RawZero(al);
    }
  }

  lemma {:induction false} AllowedNext(al: nat, high: nat, k: nat)
    requires GoodLog(al) && high + 1 < Pow2(al) && k <= Pow2(al)
    ensures Allowed(al, high + 1, k) == Allowed(al, high, k) + (if Index(al, high + 1) < k then 1 else 0)
    decreases k
  {
    if k > 0 {
      AllowedNext(al, high, k - 1);
      IndexOf(al, k - 1);
      IndexOf(al, high + 1);
    }
  }

  /** One round of the walk meets each of the cells up to `high` once. */
  lemma {:induction false} AllowedAll(al: nat, high: nat)
    requires GoodLog(al) && high < Pow2(al)
    ensures Allowed(al, high, Pow2(al)) == high + 1
    decreases high
  {
    if high == 0 {
      AllowedZero(al, Pow2(al));
    } else {
      AllowedAll(al, high - 1);
      AllowedNext(al, high - 1, Pow2(al));
    }
  }

  lemma {:induction false} AllowedWraps(al: nat, high: nat, k: nat)
    requires GoodLog(al) && high < Pow2(al)
    ensures Allowed(al, high, Pow2(al) + k) == high + 1 + Allowed(al, high, k)
    decreases k
  {
    if k == 0 {
      AllowedAll(al, high);
    } else {
      AllowedWraps(al, high, k - 1);
      RawWraps(al, k - 1);
    }
  }

  /** After `q` whole rounds everything is as at the start. */
  lemma {:induction false} AfterRounds(al: nat, high: nat, q: nat, k: nat)
    requires GoodLog(al) && high < Pow2(al)
    ensures Raw(al, q * Pow2(al) + k) == Raw(al, k)
    ensures Allowed(al, high, q * Pow2(al) + k) == q * (high + 1) + Allowed(al, high, k)
    decreases q
  {
    hide Raw, Pow2, Allowed;
    var t := Pow2(al);
    if q == 0 {
      assert q * t + k == k;
    } else {
      var before: nat := (q - 1) * t + k;
      AfterRounds(al, high, q - 1, k);
      MulAdd(q - 1, 1, t);
      MulAdd(q - 1, 1, high + 1);
      assert q * t + k == t + before;
      AllowedWraps(al, high, before);
      RawWraps(al, before);
    }
  }

  predicate Divides(d: nat, n: nat)
    requires d > 0
  {
    n % d == 0
  }

  /** The steps of the walk for `placed` symbols, `round` of them to a round of `size` steps. */
  function Rounds(placed: nat, round: nat, size: nat): nat
    requires round > 0
  {
    placed / round * size
  }

  lemma WholeRounds(placed: nat, round: nat, size: nat, q: nat, r: nat)
    requires r < round && placed == q * round + r
    ensures Divides(round, placed) <==> r == 0
    ensures Rounds(placed, round, size) == q * size
  {
    DivUnique(placed, round, q, r);
  }

  /** The walk is back at cell 0 exactly after whole rounds. */
  lemma BackAtZero(al: nat, high: nat, k: nat)
    requires GoodLog(al) && high < Pow2(al) && Raw(al, k) <= high
    ensures Raw(al, k) == 0 <==> Divides(high + 1, Allowed(al, high, k))
    ensures Raw(al, k) == 0 ==> k == Rounds(Allowed(al, high, k), high + 1, Pow2(al))
  {
    hide Raw, Index, Pow2, Divides, Rounds;
    var t := Pow2(al);
    var q, r := Quot(k, t), k % t;
    Division(k, t);
    AfterRounds(al, high, q, r);
    RawZero(al);
    IndexOf(al, r);
    IndexOf(al, 0);
    AllowedAll(al, high);
    AllowedMonotone(al, high, r + 1, t);
    if r > 0 {
      AllowedMonotone(al, high, 1, r);
    }
    WholeRounds(Allowed(al, high, k), high + 1, t, q, Allowed(al, high, r));
  }

  // ----- the symbols of the cells -----

  /** The cells of the symbols with probability -1: from the end of the table downwards. */
  function TopCells(probs: seq<int>, size: nat): (r: seq<Option<nat>>)
    requires Tops(probs) <= size
    ensures |r| == size
  {
    if probs == [] then Rep<Option<nat>>(None, size)
    else
      var last := |probs| - 1;
      var r := TopCells(probs[..last], size);
      if probs[last] == -1 then r[size - 1 - Tops(probs[..last]) := Some(last)] else r
  }

  /** The last cell the walk may use. When all cells are taken from the end, the original's
      threshold wraps around, and no cell is beyond it. */
  function High(probs: seq<int>, al: nat): (h: nat)
    requires Tops(probs) <= Pow2(al)
    ensures h < Pow2(al)
  {
    if Tops(probs) < Pow2(al) then Pow2(al) - 1 - Tops(probs) else Pow2(al) - 1
  }

  /** The cells after `k` steps of the walk: it places the next symbol wherever it is allowed. */
  function Lap(probs: seq<int>, al: nat, k: nat): (r: seq<Option<nat>>)
    requires Tops(probs) <= Pow2(al)
    ensures |r| == Pow2(al)
  {
    if k == 0 then TopCells(probs, Pow2(al))
    else
      var cells, i := Lap(probs, al, k - 1), Allowed(al, High(probs, al), k - 1);
      if Raw(al, k - 1) <= High(probs, al) && i < |Expand(probs)|
      then cells[Raw(al, k - 1) := Some(Expand(probs)[i])]
      else cells
  }

  /** A distribution the table has room for exactly. */
  ghost predicate Fits(probs: seq<int>, al: nat) {
    GoodLog(al) && Total(probs) == Pow2(al)
  }

  /** The walk over the table ends at cell 0: it has gone round a number of times. A table without
      symbols, or with more of them at the end than it has cells, is a crash. */
  predicate Closes(probs: seq<int>, al: nat) {
    probs != [] && Tops(probs) <= Pow2(al) && Divides(High(probs, al) + 1, |Expand(probs)|)
  }

  /** The cells when the walk is over. */
  function Cells(probs: seq<int>, al: nat): (r: seq<Option<nat>>)
    requires Tops(probs) <= Pow2(al)
    ensures |r| == Pow2(al)
  {
    Lap(probs, al, Rounds(|Expand(probs)|, High(probs, al) + 1, Pow2(al)))
  }

  /** When the distribution fits, once, or not at all when there is nothing to place. */
  lemma FitsOnce(probs: seq<int>, al: nat)
    requires Fits(probs, al)
    ensures Tops(probs) <= Pow2(al) && Closes(probs, al) && |Expand(probs)| == Pow2(al) - Tops(probs)
    ensures Cells(probs, al) == if Tops(probs) < Pow2(al) then Lap(probs, al, Pow2(al)) else TopCells(probs, Pow2(al))
  {
    hide Lap, TopCells, Expand, Tops, Pow2, Rounds, Divides;
    TotalSplit(probs);
    Pow2Positive(al);
    RoundOrNone(High(probs, al) + 1, Pow2(al));
    LapStart(probs, al);
    assert Total([]) == 0;
  }

  lemma RoundOrNone(round: nat, size: nat)
    requires round > 0
    ensures Divides(round, round) && Rounds(round, round, size) == size
    ensures Divides(round, 0) && Rounds(0, round, size) == 0
  {
    DivUnique(round, round, 1, 0);
    DivUnique(0, round, 0, 0);
  }

  lemma LapStart(probs: seq<int>, al: nat)
    requires Tops(probs) <= Pow2(al)
    ensures Lap(probs, al, 0) == TopCells(probs, Pow2(al))
  {
  }

  lemma {:induction false} TopCellsAre(probs: seq<int>, size: nat, p: nat)
    requires Tops(probs) <= size && p < size
    ensures var c := TopCells(probs, size)[p];
      if p < size - Tops(probs) then c == None else c.Some? && c.value < |probs| && probs[c.value] == -1
    decreases |probs|
  {
    if probs != [] {
      TopCellsAre(probs[..|probs| - 1], size, p);
    }
  }

  /** A cell the walk has not reached, or never will, is as it was. */
  lemma {:induction false} LapUntouched(probs: seq<int>, al: nat, k: nat, p: nat)
    requires GoodLog(al) && Tops(probs) < Pow2(al) && k <= Pow2(al) && p < Pow2(al)
    requires p > High(probs, al) || Index(al, p) >= k
    ensures Lap(probs, al, k)[p] == TopCells(probs, Pow2(al))[p]
    decreases k
  {
    hide Raw, Index;
    if k > 0 {
      LapUntouched(probs, al, k - 1, p);
      IndexOf(al, k - 1);
    }
  }

  /** In the first round the walk puts into cell `p` the symbol whose turn it is. */
  lemma {:induction false} LapCell(probs: seq<int>, al: nat, k: nat, p: nat)
    requires Fits(probs, al) && Tops(probs) < Pow2(al) && k <= Pow2(al) && p <= High(probs, al) && Index(al, p) < k
    ensures var i := Allowed(al, High(probs, al), Index(al, p));
      i < |Expand(probs)| && Lap(probs, al, k)[p] == Some(Expand(probs)[i])
    decreases k
  {
    hide Raw, Index, Expand, Tops, TopCells, Pow2;
    var high := High(probs, al);
    TotalSplit(probs);
    AllowedAll(al, high);
    IndexOf(al, p);
    AllowedMonotone(al, high, Index(al, p) + 1, Pow2(al));
    IndexOf(al, k - 1);
    if Index(al, p) < k - 1 {
      LapCell(probs, al, k - 1, p);
    }
  }

  /** A distribution that fits leaves no cell without a symbol. */
  lemma LapFull(probs: seq<int>, al: nat, p: nat)
    requires Fits(probs, al) && p < Pow2(al)
    ensures Tops(probs) <= Pow2(al)
    ensures var c := Cells(probs, al)[p];
      c.Some? && c.value < |probs| && Weight(probs[c.value]) > 0
  {
    FitsOnce(probs, al);
    if Tops(probs) == Pow2(al) {
      TopCellsAre(probs, Pow2(al), p);
    } else if p <= High(probs, al) {
      LapCell(probs, al, Pow2(al), p);
      ExpandSymbols(probs, Allowed(al, High(probs, al), Index(al, p)));
    } else {
      LapUntouched(probs, al, Pow2(al), p);
      TopCellsAre(probs, Pow2(al), p);
    }
  }

  function Count<T(==)>(xs: seq<T>, x: T): nat {
    if xs == [] then 0 else Count(xs[..|xs| - 1], x) + (if xs[|xs| - 1] == x then 1 else 0)
  }

  lemma {:induction false} CountUpdate<T>(xs: seq<T>, i: nat, y: T, x: T)
    requires i < |xs|
    ensures Count(xs[i := y], x) == Count(xs, x) - (if xs[i] == x then 1 else 0) + (if y == x then 1 else 0)
    decreases |xs|
  {
    var last := |xs| - 1;
    if i == last {
      assert xs[i := y][..last] == xs[..last];
    } else {
      CountUpdate(xs[..last], i, y, x);
      assert xs[i := y][..last] == xs[..last][i := y];
    }
  }

  lemma {:induction false} CountAppend<T>(a: seq<T>, b: seq<T>, x: T)
    ensures Count(a + b, x) == Count(a, x) + Count(b, x)
    decreases |b|
  {
    if b == [] {
      assert a + b == a;
    } else {
      CountAppend(a, b[..|b| - 1], x);
      assert (a + b)[..|a + b| - 1] == a + b[..|b| - 1];
    }
  }

  lemma {:induction false} CountRep<T>(y: T, n: nat, x: T)
    ensures Count(Rep(y, n), x) == if y == x then n else 0
    decreases n
  {
    if n > 0 {
      CountRep(y, n - 1, x);
      assert Rep(y, n)[..n - 1] == Rep(y, n - 1);
    }
  }

  lemma {:induction false} ExpandCount(probs: seq<int>, s: nat)
    ensures Count<nat>(Expand(probs), s) == if s < |probs| && probs[s] > 0 then probs[s] else 0
    decreases |probs|
  {
    if probs != [] {
      var last: nat := |probs| - 1;
      ExpandCount(probs[..last], s);
      if probs[last] > 0 {
        CountAppend<nat>(Expand(probs[..last]), Rep<nat>(last, probs[last]), s);
        CountRep<nat>(last, probs[last], s);
      } else {
        assert Expand(probs[..last]) + [] == Expand(probs[..last]);
      }
    }
  }

  lemma {:induction false} TopCount(probs: seq<int>, size: nat, s: nat)
    requires Tops(probs) <= size
    ensures Count<Option<nat>>(TopCells(probs, size), Some(s)) == if s < |probs| && probs[s] == -1 then 1 else 0
    decreases |probs|
  {
    if probs == [] {
      CountRep<Option<nat>>(None, size, Some(s));
    } else {
      var last := |probs| - 1;
      TopCount(probs[..last], size, s);
      if probs[last] == -1 {
        var at := size - 1 - Tops(probs[..last]);
        TopCellsAre(probs[..last], size, at);
        CountUpdate<Option<nat>>(TopCells(probs[..last], size), at, Some(last), Some(s));
      }
    }
  }

  /** No cell is taken twice in the first round. */
  lemma {:induction false} LapCount(probs: seq<int>, al: nat, k: nat, s: nat)
    requires Fits(probs, al) && Tops(probs) < Pow2(al) && k <= Pow2(al)
    ensures var i := Allowed(al, High(probs, al), k);
      && i <= |Expand(probs)|
      && Count<Option<nat>>(Lap(probs, al, k), Some(s))
          == Count<Option<nat>>(TopCells(probs, Pow2(al)), Some(s)) + Count<nat>(Expand(probs)[..i], s)
    decreases k
  {
    hide Raw, Index, Expand, TopCells, Count;
    var high := High(probs, al);
    TotalSplit(probs);
    AllowedAll(al, high);
    AllowedMonotone(al, high, k, Pow2(al));
    if k > 0 {
      LapCount(probs, al, k - 1, s);
      var i, p := Allowed(al, high, k - 1), Raw(al, k - 1);
      if p <= high {
        IndexOf(al, k - 1);
        LapUntouched(probs, al, k - 1, p);
        TopCellsAre(probs, Pow2(al), p);
        CountUpdate<Option<nat>>(Lap(probs, al, k - 1), p, Some(Expand(probs)[i]), Some(s));
        CountNext<nat>(Expand(probs), i, s);
      }
    } else {
      CountNone<nat>(Expand(probs), s);
    }
  }

  lemma CountNone<T>(xs: seq<T>, x: T)
    ensures Count(xs[..0], x) == 0
  {
  }

  lemma CountNext<T>(xs: seq<T>, i: nat, x: T)
    requires i < |xs|
    ensures Count(xs[..i + 1], x) == Count(xs[..i], x) + (if xs[i] == x then 1 else 0)
  {
    assert xs[..i + 1][..i] == xs[..i];
  }

  function SymbolOf(cell: Option<nat>): nat {
    if cell.Some? then cell.value else 0
  }

  function SymbolsOf(cells: seq<Option<nat>>): (r: seq<nat>)
    ensures |r| == |cells| && forall p :: 0 <= p < |r| ==> r[p] == SymbolOf(cells[p])
  {
    seq(|cells|, p requires 0 <= p < |cells| => SymbolOf(cells[p]))
  }

  /** The symbols of the whole table. */
  function Symbols(probs: seq<int>, al: nat): seq<nat>
    requires Tops(probs) <= Pow2(al)
  {
    SymbolsOf(Cells(probs, al))
  }

  lemma {:induction false} CountSymbols(cells: seq<Option<nat>>, s: nat)
    requires forall p :: 0 <= p < |cells| ==> cells[p].Some?
    ensures Count<nat>(SymbolsOf(cells), s) == Count<Option<nat>>(cells, Some(s))
    decreases |cells|
  {
    if cells != [] {
      var last := |cells| - 1;
      CountSymbols(cells[..last], s);
      assert SymbolsOf(cells)[..last] == SymbolsOf(cells[..last]);
    }
  }

  /** Every symbol gets exactly the cells its probability asks for. */
  lemma CellsPerSymbol(probs: seq<int>, al: nat)
    requires Fits(probs, al)
    ensures Tops(probs) <= Pow2(al) && |Symbols(probs, al)| == Pow2(al)
    ensures forall p :: 0 <= p < Pow2(al) ==> Symbols(probs, al)[p] < |probs|
    ensures forall s :: 0 <= s < |probs| ==> Count<nat>(Symbols(probs, al), s) == Weight(probs[s])
  {
    hide Cells;
    var t := Pow2(al);
    FitsOnce(probs, al);
    forall p | 0 <= p < t ensures Cells(probs, al)[p].Some? && Symbols(probs, al)[p] < |probs| {
      LapFull(probs, al, p);
    }
    forall s | 0 <= s < |probs| ensures Count<nat>(Symbols(probs, al), s) == Weight(probs[s]) {
      CountSymbols(Cells(probs, al), s);
      CountOfSymbol(probs, al, s);
    }
  }

  lemma CountOfSymbol(probs: seq<int>, al: nat, s: nat)
    requires Fits(probs, al) && s < |probs|
    ensures Tops(probs) <= Pow2(al) && Count<Option<nat>>(Cells(probs, al), Some(s)) == Weight(probs[s])
  {
    hide Lap, Expand, TopCells, Cells, Tops;
    FitsOnce(probs, al);
    if Tops(probs) < Pow2(al) {
      LapCount(probs, al, Pow2(al), s);
      AllowedAll(al, High(probs, al));
      assert Expand(probs)[..|Expand(probs)|] == Expand(probs);
    }
    ExpandCount(probs, s);
    TopCount(probs, Pow2(al), s);
  }

  // ----- numbering the cells of a symbol -----

  /** The symbols of a table in which every symbol has the cells it should have. */
  ghost predicate SymbolsFit(probs: seq<int>, al: nat, syms: seq<nat>) {
    && |syms| == Pow2(al)
    && (forall p :: 0 <= p < |syms| ==> syms[p] < |probs|)
    && forall s :: 0 <= s < |probs| ==> Count<nat>(syms, s) == Weight(probs[s])
  }

  /** The cells of a symbol with `w` cells are numbered w, w + 1, ..., 2w - 1 in order. */
  function Number(probs: seq<int>, syms: seq<nat>, p: nat): nat
    requires p < |syms| && syms[p] < |probs|
  {
    Weight(probs[syms[p]]) + Count<nat>(syms[..p], syms[p])
  }

  /** The cell numbered `x`: it leads to the 2^bits states from x * 2^bits - 2^al on. */
  function EntryOf(al: nat, symbol: nat, x: nat): (e: Entry)
    requires 0 < x < 2 * Pow2(al)
    ensures e.symbol == symbol && e.numBits <= al
    ensures e.baseline + Pow2(al) == x * Pow2(e.numBits) && e.baseline + Pow2(e.numBits) <= Pow2(al)
  {
    Log2AtMost(x, al);
    var bits := al - Log2(x);
    ShiftedRange(x, al);
    Entry(symbol, bits, x * Pow2(bits) - Pow2(al))
  }

  lemma ShiftedRange(x: nat, al: nat)
    requires x > 0 && Log2(x) <= al
    ensures Pow2(al) <= x * Pow2(al - Log2(x)) && (x + 1) * Pow2(al - Log2(x)) <= 2 * Pow2(al)
    ensures (x + 1) * Pow2(al - Log2(x)) == x * Pow2(al - Log2(x)) + Pow2(al - Log2(x))
  {
    var n, b := Log2(x), al - Log2(x);
    Pow2Add(n, b);
    MulMonotone(Pow2(n), x, Pow2(b));
    MulMonotone(x + 1, Pow2(n + 1), Pow2(b));
    Pow2Add(n + 1, b);
    MulAdd(x, 1, Pow2(b));
  }

  lemma {:induction false} CountAtMost<T>(xs: seq<T>, x: T)
    ensures Count(xs, x) <= |xs|
    decreases |xs|
  {
    if xs != [] {
      CountAtMost(xs[..|xs| - 1], x);
    }
  }

  lemma {:induction false} CountPrefix<T>(xs: seq<T>, p: nat, x: T)
    requires p < |xs| && xs[p] == x
    ensures Count(xs[..p], x) < Count(xs, x)
    decreases |xs|
  {
    var last := |xs| - 1;
    if p < last {
      CountPrefix(xs[..last], p, x);
      assert xs[..last][..p] == xs[..p];
    }
  }

  lemma NumberRange(probs: seq<int>, al: nat, syms: seq<nat>, p: nat)
    requires SymbolsFit(probs, al, syms) && p < |syms|
    ensures var w := Weight(probs[syms[p]]);
      0 < w <= Number(probs, syms, p) < 2 * w <= 2 * Pow2(al)
  {
    CountPrefix<nat>(syms, p, syms[p]);
    CountAtMost<nat>(syms, syms[p]);
  }

  function EntryAt(probs: seq<int>, al: nat, syms: seq<nat>, p: nat): (e: Entry)
    requires SymbolsFit(probs, al, syms) && p < |syms|
    ensures e.symbol == syms[p]
  {
    NumberRange(probs, al, syms, p);
    EntryOf(al, syms[p], Number(probs, syms, p))
  }

  /** The cell numbered `x` as the original computes it, in bytes and 16-bit words: a symbol that
      the distribution gives no cell has number 0 here, and that or a number past the states
      wraps around. */
  function Coded(al: nat, symbol: nat, x: nat): Entry {
    var bits: int := al - (if x == 0 then -1 else Log2(x));
    Entry(symbol, Wrapped(bits, 256), Baseline(al, x, bits))
  }

  function Baseline(al: nat, x: nat, bits: int): nat {
    Wrapped(x * Pow2(Wrapped(bits, 16)) - Pow2(al), 65536)
  }

  function Wrapped(v: int, m: nat): nat
    requires m > 0
  {
    v % m
  }

  lemma NoWrap(v: int, m: nat)
    requires 0 <= v < m
    ensures Wrapped(v, m) == v
  {
  }

  /** Nothing wraps for the numbers a symbol should have. */
  lemma CodedIs(al: nat, symbol: nat, x: nat)
    requires al <= 15 && 0 < x < 2 * Pow2(al)
    ensures Coded(al, symbol, x) == EntryOf(al, symbol, x)
  {
    hide Pow2, Log2, Wrapped;
    assert 2 * Pow2(al) == Pow2(al + 1) by { Doubled(al); }
    Log2AtMost(x, al);
    EntryShape(al, symbol, x);
    NoWrap(al - Log2(x), 256);
    NoWrap(al - Log2(x), 16);
    NoWrap(EntryOf(al, symbol, x).baseline, 65536);
  }

  lemma Doubled(n: nat)
    ensures 2 * Pow2(n) == Pow2(n + 1)
  {
  }

  lemma EntryShape(al: nat, symbol: nat, x: nat)
    requires al <= 15 && 0 < x < 2 * Pow2(al) && Log2(x) <= al
    ensures EntryOf(al, symbol, x) == Entry(symbol, al - Log2(x), x * Pow2(al - Log2(x)) - Pow2(al))
    ensures EntryOf(al, symbol, x).baseline < 65536
  {
    hide Pow2, Log2;
    Pow2Monotone(al, 15);
    Pow15();
  }

  lemma Pow15()
    ensures Pow2(15) == 32768
  {
    assert Pow2(8) == 256;
    Pow2Add(7, 8);
    assert Pow2(7) == 128;
  }

  lemma Pow2Positive(n: nat)
    ensures Pow2(n) > 0
  {
  }

  function CodedAt(probs: seq<int>, al: nat, syms: seq<nat>, p: nat): Entry
    requires p < |syms| && syms[p] < |probs|
  {
    Coded(al, syms[p], Number(probs, syms, p))
  }

  /** Every cell holds a symbol of the distribution, or is taken for symbol 0. */
  lemma {:induction false} LapSymbols(probs: seq<int>, al: nat, k: nat, p: nat)
    requires Tops(probs) <= Pow2(al) && p < Pow2(al)
    ensures var c := Lap(probs, al, k)[p]; c.Some? ==> c.value < |probs| && Weight(probs[c.value]) > 0
    decreases k
  {
    hide Raw, Expand, TopCells, Allowed, Tops;
    if k == 0 {
      TopCellsAre(probs, Pow2(al), p);
    } else {
      LapSymbols(probs, al, k - 1, p);
      var i := Allowed(al, High(probs, al), k - 1);
      if i < |Expand(probs)| {
        ExpandSymbols(probs, i);
      }
    }
  }

  lemma SymbolsKnown(probs: seq<int>, al: nat)
    requires Closes(probs, al)
    ensures Tops(probs) <= Pow2(al)
    ensures |Symbols(probs, al)| == Pow2(al) && forall p :: 0 <= p < Pow2(al) ==> Symbols(probs, al)[p] < |probs|
  {
    hide Lap, Rounds, Divides, Tops, Expand, Pow2;
    var k := Rounds(|Expand(probs)|, High(probs, al) + 1, Pow2(al));
    forall p | 0 <= p < Pow2(al) ensures Symbols(probs, al)[p] < |probs| {
      LapSymbols(probs, al, k, p);
    }
  }

  /** The decoding table of a distribution. */
  function TableOf(probs: seq<int>, al: nat): (t: Table)
    requires Closes(probs, al)
    ensures t.log == al && |t.entries| == Pow2(al)
  {
    SymbolsKnown(probs, al);
    var syms := Symbols(probs, al);
    Table(seq(Pow2(al), p requires 0 <= p < Pow2(al) => CodedAt(probs, al, syms, p)), al)
  }

  lemma TableEntry(probs: seq<int>, al: nat, p: nat)
    requires Closes(probs, al) && p < Pow2(al)
    ensures var syms := Symbols(probs, al);
      && |syms| == Pow2(al) && syms[p] < |probs|
      && TableOf(probs, al).entries[p] == CodedAt(probs, al, syms, p)
  {
    hide Symbols, CodedAt;
    SymbolsKnown(probs, al);
  }

  /** The table of a distribution that fits. */
  lemma FittingEntry(probs: seq<int>, al: nat, p: nat)
    requires Fits(probs, al) && p < Pow2(al)
    ensures Closes(probs, al) && SymbolsFit(probs, al, Symbols(probs, al))
    ensures TableOf(probs, al).entries[p] == EntryAt(probs, al, Symbols(probs, al), p)
  {
    hide Symbols, Coded, Cells, TableOf, Pow2, Expand, Tops;
    FitsOnce(probs, al);
    CellsPerSymbol(probs, al);
    var syms := Symbols(probs, al);
    NumberRange(probs, al, syms, p);
    TableEntry(probs, al, p);
    CodedIs(al, syms[p], Number(probs, syms, p));
  }

  // ----- the cells of a symbol partition the states -----

  /** Decoding in this cell can lead to state `t`. */
  predicate Reaches(e: Entry, t: nat) {
    e.baseline <= t < e.baseline + Pow2(e.numBits)
  }

  /** Halving y = t + 2^al until it is below 2c gives the number of the cell that reaches t. */
  lemma {:induction false} FindNumber(al: nat, c: nat, y: nat, v: nat, j: nat) returns (x: nat)
    requires 1 <= c <= v && Log2(v) + j == al
    requires v * Pow2(j) <= y < (v + 1) * Pow2(j)
    ensures c <= x < 2 * c && Log2(x) <= al
    ensures x * Pow2(al - Log2(x)) <= y < (x + 1) * Pow2(al - Log2(x))
    decreases v
  {
    if v < 2 * c {
      x := v;
    } else {
      HalveRange(v, j, y);
      x := FindNumber(al, c, y, v / 2, j + 1);
    }
  }

  lemma HalveRange(v: nat, j: nat, y: nat)
    requires v * Pow2(j) <= y < (v + 1) * Pow2(j)
    ensures (v / 2) * Pow2(j + 1) <= y < (v / 2 + 1) * Pow2(j + 1)
  {
    var p := Pow2(j);
    MulAssoc(v / 2, 2, p);
    MulAssoc(v / 2 + 1, 2, p);
    MulMonotone((v / 2) * 2, v, p);
    MulMonotone(v + 1, (v / 2 + 1) * 2, p);
  }

  /** No two numbers of one symbol reach the same state. */
  lemma OneNumber(a: nat, i: nat, b: nat, j: nat, y: nat)
    requires a * Pow2(i) <= y < (a + 1) * Pow2(i) && b * Pow2(j) <= y < (b + 1) * Pow2(j)
    requires a < 2 * b && b < 2 * a
    ensures i == j && a == b
  {
    if i < j {
      Closer(a, i, b, j, y);
      assert false;
    } else if j < i {
      Closer(b, j, a, i, y);
      assert false;
    } else {
      MulAdd(a, 1, Pow2(i));
      MulAdd(b, 1, Pow2(i));
      Between(a, b, Pow2(i), y);
      Between(b, a, Pow2(i), y);
    }
  }

  lemma Between(a: nat, b: nat, p: nat, y: nat)
    requires a * p <= y < (b + 1) * p
    ensures a <= b
  {
    if a > b {
      MulMonotone(b + 1, a, p);
      assert false;
    }
  }

  lemma Closer(a: nat, i: nat, b: nat, j: nat, y: nat)
    requires i < j && b * Pow2(j) <= y < (a + 1) * Pow2(i)
    ensures 2 * b <= a
  {
    Pow2Add(i, 1);
    Pow2Monotone(i + 1, j);
    assert Pow2(1) == 2;
    MulMonotone(Pow2(i + 1), Pow2(j), b);
    MulAssoc(b, 2, Pow2(i));
    Between(2 * b, a, Pow2(i), y);
  }

  /** The k-th cell of a symbol. */
  lemma {:induction false} NthCell(syms: seq<nat>, s: nat, k: nat) returns (p: nat)
    requires k < Count<nat>(syms, s)
    ensures p < |syms| && syms[p] == s && Count<nat>(syms[..p], s) == k
    decreases |syms|
  {
    var last := |syms| - 1;
    if k < Count<nat>(syms[..last], s) {
      p := NthCell(syms[..last], s, k);
      assert syms[..last][..p] == syms[..p];
    } else {
      p := last;
    }
  }

  /** Two cells of a symbol have different numbers. */
  lemma NumbersDiffer(syms: seq<nat>, p: nat, q: nat)
    requires p < q < |syms| && syms[p] == syms[q]
    ensures Count<nat>(syms[..p], syms[p]) < Count<nat>(syms[..q], syms[q])
  {
    CountPrefix<nat>(syms[..q], p, syms[p]);
    assert syms[..q][..p] == syms[..p];
  }

  lemma TopBit(al: nat, t: nat)
    requires t < Pow2(al)
    ensures Log2(t + Pow2(al)) == al && Pow2(0) == 1
  {
    Log2Is(t + Pow2(al), al);
  }

  /** Every state can be reached from a cell of every symbol that has one. */
  lemma SourceExists(probs: seq<int>, al: nat, syms: seq<nat>, s: nat, t: nat) returns (p: nat)
    requires SymbolsFit(probs, al, syms) && s < |probs| && Weight(probs[s]) > 0 && t < Pow2(al)
    ensures p < |syms| && syms[p] == s && Reaches(EntryAt(probs, al, syms, p), t)
  {
    hide Pow2, Log2, Count, Weight, EntryAt, Reaches;
    var w, y := Weight(probs[s]), t + Pow2(al);
    CountAtMost<nat>(syms, s);
    TopBit(al, t);
    var x := FindNumber(al, w, y, y, 0);
    p := NthCell(syms, s, x - w);
    EntryReaches(probs, al, syms, p, x, t);
  }

  lemma EntryReaches(probs: seq<int>, al: nat, syms: seq<nat>, p: nat, x: nat, t: nat)
    requires SymbolsFit(probs, al, syms) && p < |syms| && x == Number(probs, syms, p) && 0 < x && Log2(x) <= al
    requires x * Pow2(al - Log2(x)) <= t + Pow2(al) < (x + 1) * Pow2(al - Log2(x))
    ensures Reaches(EntryAt(probs, al, syms, p), t)
  {
    hide Pow2, Log2, Count, Weight, SymbolsFit;
    NumberRange(probs, al, syms, p);
    MulAdd(x, 1, Pow2(al - Log2(x)));
  }

  /** And from only one. */
  lemma SourceUnique(probs: seq<int>, al: nat, syms: seq<nat>, p: nat, q: nat, t: nat)
    requires SymbolsFit(probs, al, syms) && p < |syms| && q < |syms| && syms[p] == syms[q]
    requires Reaches(EntryAt(probs, al, syms, p), t) && Reaches(EntryAt(probs, al, syms, q), t)
    ensures p == q
  {
    NumberRange(probs, al, syms, p);
    NumberRange(probs, al, syms, q);
    var x, x' := Number(probs, syms, p), Number(probs, syms, q);
    var b, b' := EntryAt(probs, al, syms, p).numBits, EntryAt(probs, al, syms, q).numBits;
    MulAdd(x, 1, Pow2(b));
    MulAdd(x', 1, Pow2(b'));
    OneNumber(x, b, x', b', t + Pow2(al));
    if p < q {
      NumbersDiffer(syms, p, q);
    } else if q < p {
      NumbersDiffer(syms, q, p);
    }
  }

  // ----- building the table -----

  /** The symbol column agrees with the cells placed so far. */
  ghost predicate Holds(entries: seq<Entry>, cells: seq<Option<nat>>) {
    |entries| == |cells| && forall p :: 0 <= p < |entries| ==> entries[p] == Entry(SymbolOf(cells[p]), 0, 0)
  }

  lemma HoldsUpdate(entries: seq<Entry>, cells: seq<Option<nat>>, p: nat, s: nat)
    requires Holds(entries, cells) && p < |entries|
    ensures Holds(entries[p := entries[p].(symbol := s)], cells[p := Some(s)])
  {
  }

  lemma TopsNext(probs: seq<int>, s: nat, size: nat)
    requires s < |probs| && Tops(probs[..s + 1]) <= size
    ensures Tops(probs[..s + 1]) == Tops(probs[..s]) + (if probs[s] == -1 then 1 else 0)
    ensures TopCells(probs[..s + 1], size)
         == if probs[s] == -1 then TopCells(probs[..s], size)[size - 1 - Tops(probs[..s]) := Some(s)]
            else TopCells(probs[..s], size)
  {
    assert probs[..s + 1][..s] == probs[..s];
  }

  lemma {:induction false} TopsMonotone(probs: seq<int>, s: nat)
    requires s <= |probs|
    ensures Tops(probs[..s]) <= Tops(probs)
    decreases |probs|
  {
    if s < |probs| {
      TopsMonotone(probs[..|probs| - 1], s);
      assert probs[..|probs| - 1][..s] == probs[..s];
    } else {
      assert probs[..s] == probs;
    }
  }

  /** Step 1: the symbols with probability -1. More of them than cells is an index out of bounds. */
  method PlaceTops(entries: array<Entry>, probs: seq<int>) returns (high: Option<nat>)
    requires entries.Length > 0 && forall p :: 0 <= p < entries.Length ==> entries[p] == Entry(0, 0, 0)
    modifies entries
    ensures high.None? <==> Tops(probs) > entries.Length
    ensures high.Some? ==> Holds(entries[..], TopCells(probs, entries.Length))
    ensures high.Some? ==>
              high.value == if Tops(probs) < entries.Length
                  then entries.Length - 1 - Tops(probs) else entries.Length - 1
  {
    hide TopCells, Tops, Holds;
    var threshold: int := entries.Length - 1;
    ghost var size: nat := entries.Length;
    NoTops(entries[..], size);
    assert probs[..0] == [];
    var s: nat := 0;
    while s < |probs|
      invariant s <= |probs| && Tops(probs[..s]) <= size && threshold == size - 1 - Tops(probs[..s])
      invariant Holds(entries[..], TopCells(probs[..s], size))
    {
      TopsStep(probs, s);
      if probs[s] == -1 {
        if threshold < 0 {
          TopsMonotone(probs, s + 1);
          return None;
        }
        HoldsUpdate(entries[..], TopCells(probs[..s], size), threshold, s);
        entries[threshold] := entries[threshold].(symbol := s);
        threshold := threshold - 1;
      }
      TopsNext(probs, s, size);
      s := s + 1;
    }
    assert probs[..s] == probs;
    // Below zero the threshold of the original wraps around to the largest index there is.
    return Some(if threshold < 0 then entries.Length - 1 else threshold);
  }

  lemma TopsStep(probs: seq<int>, s: nat)
    requires s < |probs|
    ensures Tops(probs[..s + 1]) == Tops(probs[..s]) + (if probs[s] == -1 then 1 else 0)
  {
    assert probs[..s + 1][..s] == probs[..s];
  }

  lemma NoTops(entries: seq<Entry>, size: nat)
    requires |entries| == size && forall p :: 0 <= p < size ==> entries[p] == Entry(0, 0, 0)
    ensures Tops([]) == 0 && Holds(entries, TopCells([], size))
  {
  }

  lemma SameAdd(a: nat, c: nat, t: nat)
    requires t > 0
    ensures (a % t + c) % t == (a + c) % t
  {
    Division(a, t);
    ModUnique(a % t + c, Quot(a, t), t);
  }

  lemma RawNext(al: nat, k: nat)
    ensures Raw(al, k + 1) == (Raw(al, k) + Step(Pow2(al))) % Pow2(al)
  {
    hide Step, Pow2;
    MulAdd(k, 1, Step(Pow2(al)));
    SameAdd(k * Step(Pow2(al)), Step(Pow2(al)), Pow2(al));
  }

  lemma RawRound(al: nat, q: nat)
    ensures Raw(al, q * Pow2(al)) == 0
  {
    var s, t := Step(Pow2(al)), Pow2(al);
    assert q * t * s == (q * s) * t;
    DivUnique(q * t * s, t, q * s, 0);
  }

  /** From an allowed cell to the next one. */
  method NextAllowed(al: nat, pos0: nat, step: nat, size: nat, high: nat, ghost probs: seq<int>, ghost k: nat)
      returns (pos: nat, ghost n: nat)
    requires size == Pow2(al) && step == Step(size) && Tops(probs) <= size && high == High(probs, al)
    requires pos0 == Raw(al, k) && pos0 <= high
    ensures n > k && pos == Raw(al, n) && pos <= high
    ensures Allowed(al, high, n) == Allowed(al, high, k) + 1
    ensures Lap(probs, al, n) == Lap(probs, al, k + 1)
  {
    hide Raw, Step, Pow2;
    RawNext(al, k);
    n := k + 1;
    pos := (pos0 + step) % size;
    ghost var q := Quot(n, size) + 1;
    RoundAfter(n, size);
    RawRound(al, q);
    while pos > high
      invariant k < n <= q * size && pos == Raw(al, n)
      invariant Allowed(al, high, n) == Allowed(al, high, k) + 1
      invariant Lap(probs, al, n) == Lap(probs, al, k + 1)
      decreases q * size - n
    {
      RawNext(al, n);
      n := n + 1;
      pos := (pos + step) % size;
    }
  }

  lemma RoundAfter(n: nat, size: nat)
    requires size > 0
    ensures n < (Quot(n, size) + 1) * size
  {
    Division(n, size);
    MulAdd(Quot(n, size), 1, size);
  }

  /** Step 2: the walk, and where it ends. */
  method SpreadSymbols(entries: array<Entry>, probs: seq<int>, al: nat, high: nat) returns (pos: nat)
    requires GoodLog(al) && entries.Length == Pow2(al) && Tops(probs) <= Pow2(al) && high == High(probs, al)
    requires Holds(entries[..], TopCells(probs, Pow2(al)))
    modifies entries
    ensures pos == 0 <==> Divides(high + 1, |Expand(probs)|)
    ensures pos == 0 ==> Holds(entries[..], Cells(probs, al))
  {
    hide Raw, Step, Pow2, Lap, Expand, Holds, Tops, Allowed, Rounds, Divides;
    var size := entries.Length;
    var step := Step(size);
    pos := 0;
    ghost var k: nat := 0;
    Starts(probs, al);
    var s: nat := 0;
    while s < |probs|
      invariant s <= |probs| && pos == Raw(al, k) && pos <= high
      invariant Allowed(al, high, k) == |Expand(probs[..s])|
      invariant Holds(entries[..], Lap(probs, al, k))
    {
      ExpandNext(probs, s);
      if probs[s] > 0 {
        pos, k := PlaceSymbol(entries, probs, al, high, s, pos, k);
      }
      s := s + 1;
    }
    assert probs[..s] == probs;
    BackAtZero(al, high, k);
  }

  lemma Starts(probs: seq<int>, al: nat)
    requires Tops(probs) <= Pow2(al)
    ensures Raw(al, 0) == 0 && Allowed(al, High(probs, al), 0) == 0 == |Expand(probs[..0])|
    ensures Lap(probs, al, 0) == TopCells(probs, Pow2(al))
  {
    RawZero(al);
  }

  lemma ExpandNext(probs: seq<int>, s: nat)
    requires s < |probs|
    ensures |Expand(probs[..s + 1])| == |Expand(probs[..s])| + (if probs[s] > 0 then probs[s] else 0)
  {
    assert probs[..s + 1][..s] == probs[..s];
  }

  /** All cells of one symbol. */
  method PlaceSymbol(entries: array<Entry>, probs: seq<int>, al: nat, high: nat, s: nat, pos0: nat, ghost k0: nat)
      returns (pos: nat, ghost k: nat)
    requires entries.Length == Pow2(al) && Tops(probs) <= Pow2(al) && high == High(probs, al)
    requires s < |probs| && probs[s] > 0 && pos0 == Raw(al, k0) && pos0 <= high
    requires Allowed(al, high, k0) == |Expand(probs[..s])| && Holds(entries[..], Lap(probs, al, k0))
    modifies entries
    ensures pos == Raw(al, k) && pos <= high && Allowed(al, high, k) == |Expand(probs[..s])| + probs[s]
    ensures Holds(entries[..], Lap(probs, al, k))
  {
    hide Raw, Step, Pow2, Lap, Expand, Holds, Tops, Allowed;
    var size := entries.Length;
    var step := Step(size);
    pos, k := pos0, k0;
    var c: nat := 0;
    while c < probs[s]
      invariant c <= probs[s] && pos == Raw(al, k) && pos <= high
      invariant Allowed(al, high, k) == |Expand(probs[..s])| + c
      invariant Holds(entries[..], Lap(probs, al, k))
    {
      ExpandAt(probs, s, c);
      LapPlaces(probs, al, k, s);
      HoldsUpdate(entries[..], Lap(probs, al, k), pos, s);
      entries[pos] := entries[pos].(symbol := s);
      pos, k := NextAllowed(al, pos, step, size, high, probs, k);
      c := c + 1;
    }
  }

  lemma LapPlaces(probs: seq<int>, al: nat, k: nat, s: nat)
    requires Tops(probs) <= Pow2(al) && Raw(al, k) <= High(probs, al)
    requires var i := Allowed(al, High(probs, al), k); i < |Expand(probs)| && Expand(probs)[i] == s
    ensures Lap(probs, al, k + 1) == Lap(probs, al, k)[Raw(al, k) := Some(s)]
  {
  }

  /** Step 3: the number of bits and the baseline of every cell. */
  method NumberCells(entries: array<Entry>, probs: seq<int>, al: nat, ghost syms: seq<nat>)
    requires |syms| == Pow2(al) == entries.Length
    requires forall p :: 0 <= p < |syms| ==> syms[p] < |probs| && entries[p] == Entry(syms[p], 0, 0)
    modifies entries
    ensures forall p :: 0 <= p < |syms| ==> entries[p] == CodedAt(probs, al, syms, p)
  {
    hide Pow2, Log2, Wrapped, CodedAt, Weight;
    var symbolNext := new nat[|probs|](s requires 0 <= s < |probs| => Weight(probs[s]));
    var size := entries.Length;
    var p: nat := 0;
    while p < size
      invariant p <= size && entries.Length == size
      invariant forall s :: 0 <= s < |probs| ==> symbolNext[s] == Weight(probs[s]) + Count<nat>(syms[..p], s)
      invariant forall q :: 0 <= q < p ==> entries[q] == CodedAt(probs, al, syms, q)
      invariant forall q :: p <= q < size ==> entries[q] == Entry(syms[q], 0, 0)
    {
      var sym := entries[p].symbol;
      var x := symbolNext[sym];
      CountsNext(syms, p);
      CodedNow(probs, al, syms, p, x);
      symbolNext[sym] := x + 1;
      var nb: int := al - (if x == 0 then -1 else Log2(x));
      var baseline: int := x * Pow2(Wrapped(nb, 16)) - size;
      entries[p] := entries[p].(numBits := Wrapped(nb, 256), baseline := Wrapped(baseline, 65536));
      p := p + 1;
    }
  }

  lemma CodedNow(probs: seq<int>, al: nat, syms: seq<nat>, p: nat, x: nat)
    requires p < |syms| && syms[p] < |probs| && x == Weight(probs[syms[p]]) + Count<nat>(syms[..p], syms[p])
    ensures var bits: int := al - (if x == 0 then -1 else Log2(x));
      CodedAt(probs, al, syms, p)
      == Entry(syms[p], Wrapped(bits, 256), Wrapped(x * Pow2(Wrapped(bits, 16)) - Pow2(al), 65536))
  {
    hide Wrapped, Pow2, Log2, Count, Weight;
    CodedIsEntry(al, syms[p], x);
  }

  lemma CodedIsEntry(al: nat, symbol: nat, x: nat)
    ensures var bits: int := al - (if x == 0 then -1 else Log2(x));
      Coded(al, symbol, x)
      == Entry(symbol, Wrapped(bits, 256), Wrapped(x * Pow2(Wrapped(bits, 16)) - Pow2(al), 65536))
  {
    hide Wrapped, Pow2, Log2;
  }

  lemma CountsNext(syms: seq<nat>, p: nat)
    requires p < |syms|
    ensures forall s :: Count<nat>(syms[..p + 1], s) == Count<nat>(syms[..p], s) + (if syms[p] == s then 1 else 0)
  {
    forall s ensures Count<nat>(syms[..p + 1], s) == Count<nat>(syms[..p], s) + (if syms[p] == s then 1 else 0) {
      CountNext<nat>(syms, p, s);
    }
  }

  /** Builds the decoding table if the walk closes, and refuses the distribution otherwise. */
  method Build(probs: seq<int>, al: nat) returns (table: Option<Table>)
    requires GoodLog(al)
    ensures table == if Closes(probs, al) then Some(TableOf(probs, al)) else None
  {
    hide Lap, Expand, Tops, Pow2, TopCells, Holds, Cells, CodedAt, Divides;
    Pow2Positive(al);
    var size := Pow2(al);
    var entries := new Entry[size](_ => Entry(0, 0, 0));
    var high := PlaceTops(entries, probs);
    if high.None? {
      return None;
    }
    var pos := SpreadSymbols(entries, probs, al, high.value);
    if pos != 0 || probs == [] {
      return None;
    }
    ghost var syms := Symbols(probs, al);
    SymbolsKnown(probs, al);
    Columns(entries[..], Cells(probs, al));
    NumberCells(entries, probs, al, syms);
    assert entries[..] == TableOf(probs, al).entries;
    return Some(Table(entries[..], al));
  }

  lemma Columns(entries: seq<Entry>, cells: seq<Option<nat>>)
    requires Holds(entries, cells)
    ensures |entries| == |SymbolsOf(cells)|
    ensures forall p :: 0 <= p < |entries| ==> entries[p] == Entry(SymbolsOf(cells)[p], 0, 0)
  {
  }

  // ----- one symbol only, and trailing zeros -----

  function Single(symbol: nat): seq<int> {
    Rep<int>(0, symbol) + [1]
  }

  lemma {:induction false} ZerosOnly(n: nat)
    ensures Total(Rep<int>(0, n)) == 0 && Tops(Rep<int>(0, n)) == 0
    decreases n
  {
    if n > 0 {
      ZerosOnly(n - 1);
      assert Rep<int>(0, n)[..n - 1] == Rep<int>(0, n - 1);
    }
  }

  /** The table of a single symbol has one cell that takes no bits. */
  lemma SingleTable(symbol: nat)
    ensures Fits(Single(symbol), 0) && Closes(Single(symbol), 0)
    ensures TableOf(Single(symbol), 0) == Table([Entry(symbol, 0, 0)], 0)
  {
    var p := Single(symbol);
    ZerosOnly(symbol);
    assert p[..symbol] == Rep<int>(0, symbol);
    FittingEntry(p, 0, 0);
    CellsPerSymbol(p, 0);
    var syms := Symbols(p, 0);
    assert syms == [syms[0]];
    assert Count<nat>(syms, symbol) == 1;
    assert syms[..0] == [];
    var e := EntryAt(p, 0, syms, 0);
    assert e.symbol == symbol && e.numBits == 0 && e.baseline == 0;
  }

  lemma {:induction false} PadSymbols(probs: seq<int>, z: nat, size: nat)
    ensures Tops(probs + Rep<int>(0, z)) == Tops(probs) && Expand(probs + Rep<int>(0, z)) == Expand(probs)
    ensures Total(probs + Rep<int>(0, z)) == Total(probs)
    ensures Tops(probs) <= size ==> TopCells(probs + Rep<int>(0, z), size) == TopCells(probs, size)
    decreases z
  {
    if z == 0 {
      assert probs + Rep<int>(0, 0) == probs;
    } else {
      PadSymbols(probs, z - 1, size);
      var p := probs + Rep<int>(0, z);
      assert p[..|p| - 1] == probs + Rep<int>(0, z - 1);
      assert Expand(probs) + [] == Expand(probs);
    }
  }

  lemma {:induction false} PadLap(probs: seq<int>, z: nat, al: nat, k: nat)
    requires Tops(probs) <= Pow2(al)
    ensures Tops(probs + Rep<int>(0, z)) <= Pow2(al)
    ensures Lap(probs + Rep<int>(0, z), al, k) == Lap(probs, al, k)
    decreases k
  {
    hide Expand, TopCells, Tops, Raw, Allowed;
    PadSymbols(probs, z, Pow2(al));
    if k > 0 {
      PadLap(probs, z, al, k - 1);
    }
  }

  /** Trailing zeros do not change the table. */
  lemma PadTable(probs: seq<int>, z: nat, al: nat)
    requires Closes(probs, al)
    ensures Closes(probs + Rep<int>(0, z), al) && TableOf(probs + Rep<int>(0, z), al) == TableOf(probs, al)
  {
    hide Lap, Tops, Total, Expand, TopCells, Log2, Pow2, Rounds, Divides, Coded;
    var p := probs + Rep<int>(0, z);
    PadSymbols(probs, z, 0);
    PadLap(probs, z, al, Rounds(|Expand(probs)|, High(probs, al) + 1, Pow2(al)));
    SymbolsKnown(probs, al);
    var syms := Symbols(probs, al);
    assert Symbols(p, al) == syms;
    forall i | 0 <= i < Pow2(al)
      ensures syms[i] < |p| && Number(p, syms, i) == Number(probs, syms, i)
    {
      assert p[syms[i]] == probs[syms[i]];
    }
    assert TableOf(p, al).entries == TableOf(probs, al).entries;
  }
}
