/** Copying from the output, as both LZ77 formats do. */
module Lz77 {
  import opened Bytes

  /** Copying `n` bytes from `d` back; the copy may read what it has written. */
  function CopyBack(output: seq<Byte>, d: nat, n: nat): (r: seq<Byte>)
    requires 1 <= d <= |output|
    ensures |r| == |output| + n && output <= r
    decreases n
  {
    if n == 0 then output
    else
      var r := CopyBack(output, d, n - 1);
      r + [r[|r| - d]]
  }

  function Rem(i: nat, d: nat): (r: nat)
    requires d > 0
    ensures r < d
  {
    i % d
  }

  lemma RemSmall(i: nat, d: nat)
    requires i < d
    ensures Rem(i, d) == i
  {
    DivUnique(i, d, 0, i);
  }

  lemma RemBack(i: nat, d: nat)
    requires 0 < d <= i
    ensures Rem(i - d, d) == Rem(i, d)
  {
    var q, r := Quot(i, d), Rem(i, d);
    assert i == q * d + r;
    QuotientAtLeast(i, d, 1);
    MulAdd(q - 1, 1, d);
    DivUnique(i - d, d, q - 1, r);
  }

  /** The copy repeats the last `d` bytes. */
  lemma {:induction false} CopyRepeats(output: seq<Byte>, d: nat, n: nat, i: nat)
    requires 1 <= d <= |output| && i < d + n
    ensures CopyBack(output, d, n)[|output| - d + i] == output[|output| - d + Rem(i, d)]
    decreases n
  {
    hide Rem;
    if n == 0 {
      RemSmall(i, d);
    } else if i < d + n - 1 {
      CopyRepeats(output, d, n - 1, i);
    } else {
      CopyRepeats(output, d, n - 1, i - d);
      RemBack(i, d);
    }
  }
}
