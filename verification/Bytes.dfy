/** Bytes, bits and powers of two, shared by the codecs. */
module Bytes {

  type Byte = x: int | 0 <= x < 256

  type Bit = x: int | 0 <= x < 2

  datatype Option<+T> = None | Some(value: T)

  function Pow2(n: nat): (r: nat)
    ensures r >= 1
  {
    if n == 0 then 1 else 2 * Pow2(n - 1)
  }

  lemma {:induction false} Pow2Monotone(m: nat, n: nat)
    requires m <= n
    ensures Pow2(m) <= Pow2(n)
    decreases n
  {
    if m < n {
      Pow2Monotone(m, n - 1);
    }
  }

  lemma {:induction false} Pow2Add(m: nat, n: nat)
    ensures Pow2(m + n) == Pow2(m) * Pow2(n)
    decreases n
  {
    if n > 0 {
      Pow2Add(m, n - 1);
    }
  }

  lemma Pow2Eight()
    ensures Pow2(8) == 256 && Pow2(9) == 512 && Pow2(16) == 65536
  {
    assert Pow2(4) == 16;
    Pow2Add(4, 4);
    Pow2Add(8, 8);
  }

  /** `x`, `n` times. */
  function Rep<T>(x: T, n: nat): (r: seq<T>)
    ensures |r| == n && forall k :: 0 <= k < n ==> r[k] == x
  {
    seq(n, _ => x)
  }

  /** Bit `k` of a number. */
  function BitOf(v: nat, k: nat): Bit {
    v / Pow2(k) % 2
  }

  /** The low `n` bits of `v`, most significant first. */
  function ToBits(v: nat, n: nat): (r: seq<Bit>)
    ensures |r| == n
    decreases n
  {
    if n == 0 then [] else ToBits(v / 2, n - 1) + [v % 2]
  }

  /** The number a bit string denotes, most significant bit first. */
  function FromBits(b: seq<Bit>): nat {
    if b == [] then 0 else 2 * FromBits(b[..|b| - 1]) + b[|b| - 1]
  }

  lemma {:induction false} BitsRoundTrip(v: nat, n: nat)
    requires v < Pow2(n)
    ensures FromBits(ToBits(v, n)) == v
    decreases n
  {
    if n > 0 {
      BitsRoundTrip(v / 2, n - 1);
      assert ToBits(v, n)[..n - 1] == ToBits(v / 2, n - 1);
    }
  }

  /** Dropping the low bit drops the last of the string. */
  lemma {:induction false} ToBitsFirst(v: nat, n: nat)
    requires n > 0
    ensures ToBits(v, n) == [BitOf(v, n - 1)] + ToBits(v, n - 1)
    decreases n
  {
    if n > 1 {
      ToBitsFirst(v / 2, n - 1);
      DivDiv(v, n - 2);
    }
  }

  lemma DivDiv(v: nat, k: nat)
    ensures v / 2 / Pow2(k) == v / Pow2(k + 1)
  {
    var p := Pow2(k);
    var q := v / 2 / p;
    assert v / 2 == q * p + v / 2 % p;
    assert v == 2 * (v / 2) + v % 2;
    var r := 2 * (v / 2 % p) + v % 2;
    assert v == q * (2 * p) + r && 0 <= r < 2 * p;
    DivUnique(v, 2 * p, q, r);
  }

  lemma DivUnique(v: nat, d: nat, q: nat, r: nat)
    requires d > 0 && v == q * d + r && r < d
    ensures v / d == q && v % d == r
  {
    var q', r' := v / d, v % d;
    assert v == q' * d + r';
    if q' < q {
      assert (q' + 1) * d <= q * d by { MulMonotone(q' + 1, q, d); }
    } else if q < q' {
      assert (q + 1) * d <= q' * d by { MulMonotone(q + 1, q', d); }
    }
  }

  lemma MulMonotone(a: nat, b: nat, d: nat)
    requires a <= b
    ensures a * d <= b * d
  {
  }

  lemma MulAdd(a: int, b: int, p: int)
    ensures (a + b) * p == a * p + b * p
  {
  }

  lemma MulAssoc(a: int, b: int, c: int)
    ensures a * (b * c) == (a * b) * c
  {
  }

  lemma Cancel(a: nat, b: nat, p: nat)
    requires p > 0 && a * p <= b * p
    ensures a <= b
  {
    MulAdd(b, 1, p);
    if a > b {
      MulMonotone(b + 1, a, p);
    }
  }

  function Quot(x: nat, d: nat): nat
    requires d > 0
  {
    x / d
  }

  lemma QuotientAtLeast(x: nat, d: nat, k: nat)
    requires d > 0 && k * d <= x
    ensures Quot(x, d) >= k
  {
    var q := x / d;
    assert x == q * d + x % d;
    MulAdd(q, 1, d);
    if q < k {
      MulMonotone(q + 1, k, d);
    }
  }

  lemma Assoc<T>(a: seq<T>, b: seq<T>, c: seq<T>)
    ensures a + (b + c) == a + b + c
  {
  }

  lemma NothingMore<T>(a: seq<T>, d: seq<T>, i: nat)
    requires i == |d|
    ensures d[i..] == [] && a + [] == a
  {
  }

  lemma DropDrop<T>(d: seq<T>, i: nat, n: nat)
    requires i + n <= |d|
    ensures d[i..][n..] == d[i + n..]
  {
  }

  /** The position of the highest set bit. */
  function Log2(x: nat): (n: nat)
    requires x > 0
    ensures Pow2(n) <= x < Pow2(n + 1)
  {
    if x == 1 then 0 else 1 + Log2(x / 2)
  }

  lemma {:induction false} Log2Is(x: nat, n: nat)
    requires Pow2(n) <= x < Pow2(n + 1)
    ensures Log2(x) == n
    decreases n
  {
    if n > 0 {
      Log2Is(x / 2, n - 1);
    }
  }

  lemma Log2AtMost(x: nat, n: nat)
    requires 0 < x < Pow2(n + 1)
    ensures Log2(x) <= n
  {
    if Log2(x) > n {
      Pow2Monotone(n + 1, Log2(x));
      assert false;
    }
  }

  lemma AddBit(s: seq<Bit>, i: nat, bit: Bit)
    requires i < |s| && s[i] == bit
    ensures FromBits(s[..i + 1]) == 2 * FromBits(s[..i]) + bit
    ensures s[i + 1..] == s[i..][1..]
  {
    assert s[..i + 1][..i] == s[..i];
  }

  lemma SliceSlice<T>(a: seq<T>, from: nat, to: nat, x: nat, y: nat)
    requires from <= to <= |a| && x <= y <= to - from
    ensures a[from..to][x..y] == a[from + x..from + y]
  {
    var s, t := a[from..to][x..y], a[from + x..from + y];
    forall k | 0 <= k < y - x ensures s[k] == t[k] {
      assert a[from..to][x + k] == a[from + (x + k)];
    }
  }
}
