/** The two run-length codings of bzip2: byte runs in front of the BWT, and runs of rank zero
    behind the move-to-front coder, written in bijective base 2. */
module Bzip2Rle {
  import opened Bytes

  /** The length of the run at the front, counting no further than `cap`. */
  function RunLength(d: seq<Byte>, cap: nat): (n: nat)
    requires d != [] && cap >= 1
    ensures 1 <= n <= cap && n <= |d| && d[..n] == Rep<Byte>(d[0], n)
    ensures n < cap && n < |d| ==> d[n] != d[0]
  {
    RunFrom(d, cap, 1)
  }

  function RunFrom(d: seq<Byte>, cap: nat, k: nat): (n: nat)
    requires 1 <= k <= |d| && k <= cap && forall h :: 0 <= h < k ==> d[h] == d[0]
    ensures k <= n <= cap && n <= |d| && d[..n] == Rep<Byte>(d[0], n)
    ensures n < cap && n < |d| ==> d[n] != d[0]
    decreases |d| - k
  {
    if k < |d| && d[k] == d[0] && k < cap then RunFrom(d, cap, k + 1) else k
  }

  function Rle1(d: seq<Byte>): seq<Byte>
    decreases |d|
  {
    if d == [] then []
    else
      var run := RunLength(d, 255);
      if run >= 4 then Rep<Byte>(d[0], 4) + [run - 4] + Rle1(d[run..])
      else [d[0]] + Rle1(d[1..])
  }

  predicate FourEqual(d: seq<Byte>) {
    |d| >= 4 && d[0] == d[1] && d[0] == d[2] && d[0] == d[3]
  }

  function Unrle1(d: seq<Byte>): seq<Byte>
    decreases |d|
  {
    if d == [] then []
    else if FourEqual(d) then
      if |d| == 4 then Rep<Byte>(d[0], 4) else Rep<Byte>(d[0], 4 + d[4] as int) + Unrle1(d[5..])
    else [d[0]] + Unrle1(d[1..])
  }

  /** A short run is copied as it is, and something else, or nothing, follows it. */
  lemma {:induction false} ShortRunCopied(d: seq<Byte>)
    requires d != [] && RunLength(d, 255) < 4
    ensures var n := RunLength(d, 255); var e := Rle1(d);
      |e| >= n && e[..n] == Rep<Byte>(d[0], n) && (|e| > n ==> e[n] != d[0])
    decreases |d|
  {
    var n := RunLength(d, 255);
    var rest := d[1..];
    if n == 1 {
      if rest != [] { FirstByte(rest); }
    } else {
      assert rest[0] == d[0];
      RunOfTail(d);
      ShortRunCopied(rest);
      assert Rle1(d) == [d[0]] + Rle1(rest);
      assert Rle1(d)[..n] == [d[0]] + Rle1(rest)[..n - 1];
    }
  }

  lemma FirstByte(d: seq<Byte>)
    requires d != []
    ensures Rle1(d) != [] && Rle1(d)[0] == d[0]
  {
  }

  lemma RunOfTail(d: seq<Byte>)
    requires d != [] && 1 < RunLength(d, 255) < 255
    ensures RunLength(d[1..], 255) == RunLength(d, 255) - 1
  {
    var n, t := RunLength(d, 255), d[1..];
    var m := RunLength(t, 255);
    assert t[0] == d[..n][1] == d[0];
  }

  lemma ShortRunNotFour(d: seq<Byte>)
    requires d != [] && RunLength(d, 255) < 4
    ensures !FourEqual(Rle1(d))
  {
    ShortRunCopied(d);
    var n, e := RunLength(d, 255), Rle1(d);
    assert e[..n][0] == d[0];
  }

  lemma LongRunDecoded(b: Byte, run: nat, tail: seq<Byte>)
    requires 4 <= run <= 255
    ensures Unrle1(Rep<Byte>(b, 4) + [run - 4] + tail) == Rep<Byte>(b, run) + Unrle1(tail)
  {
    var e := Rep<Byte>(b, 4) + [run - 4] + tail;
    assert e[0] == e[1] == e[2] == e[3] == b && e[4] == run - 4 && e[5..] == tail;
  }

  /** rle1_decode(rle1_encode(d)) == d. */
  lemma {:induction false} Rle1RoundTrip(d: seq<Byte>)
    ensures Unrle1(Rle1(d)) == d
    decreases |d|
  {
    hide RunLength, FourEqual;
    if d != [] {
      var run := RunLength(d, 255);
      var e := Rle1(d);
      if run >= 4 {
        Rle1RoundTrip(d[run..]);
        LongRunDecoded(d[0], run, Rle1(d[run..]));
        assert d == d[..run] + d[run..];
      } else {
        Rle1RoundTrip(d[1..]);
        ShortRunNotFour(d);
        assert e == [d[0]] + Rle1(d[1..]);
        assert e[1..] == Rle1(d[1..]);
        assert d == [d[0]] + d[1..];
      }
    }
  }

  lemma {:induction false} Rle1Size(d: seq<Byte>)
    ensures 4 * |Rle1(d)| <= 5 * |d| && (d != [] ==> Rle1(d) != [])
    decreases |d|
  {
    if d != [] {
      var run := RunLength(d, 255);
      Rle1Size(if run >= 4 then d[run..] else d[1..]);
    }
  }

  /** Counts never reach 252, so byte 255 in the coded data is a byte of the data. */
  lemma {:induction false} Rle1Bytes(d: seq<Byte>)
    ensures 255 in Rle1(d) ==> 255 in d
    decreases |d|
  {
    if d != [] {
      var run := RunLength(d, 255);
      if run >= 4 {
        Rle1Bytes(d[run..]);
        assert forall x :: x in d[run..] ==> x in d;
      } else {
        Rle1Bytes(d[1..]);
      }
    }
  }

  lemma {:induction false} Unrle1Bytes(d: seq<Byte>)
    ensures 255 in Unrle1(d) ==> 255 in d
    decreases |d|
  {
    if d != [] {
      if FourEqual(d) {
        if |d| > 4 {
          Unrle1Bytes(d[5..]);
          assert forall x :: x in d[5..] ==> x in d;
        }
      } else {
        Unrle1Bytes(d[1..]);
      }
    }
  }

  lemma RunScanned(d: seq<Byte>, i: nat, n: nat)
    requires i < |d| && 1 <= n <= 255 && i + n <= |d|
    requires forall h :: 0 <= h < n ==> d[i..][h] == d[i]
    requires n == 255 || i + n == |d| || d[i + n] != d[i]
    ensures RunLength(d[i..], 255) == n
  {
    var rest := d[i..];
    var m := RunLength(rest, 255);
    assert n < |rest| ==> rest[n] == d[i + n];
  }

  lemma Rle1Step(data: seq<Byte>, i: nat, before: seq<Byte>)
    requires i < |data|
    ensures var n := RunLength(data[i..], 255);
      && (n >= 4 ==> before + Rle1(data[i..])
                     == before + [data[i], data[i], data[i], data[i]] + [n - 4] + Rle1(data[i + n..]))
      && (n < 4 ==> before + Rle1(data[i..]) == before + [data[i]] + Rle1(data[i + 1..]))
  {
    hide RunLength;
    var byte, n := data[i], RunLength(data[i..], 255);
    if n >= 4 {
      DropDrop(data, i, n);
      assert Rep<Byte>(byte, 4) == [byte, byte, byte, byte];
      Assoc(before, Rep<Byte>(byte, 4) + [n - 4], Rle1(data[i + n..]));
      Assoc(before, Rep<Byte>(byte, 4), [n - 4]);
    } else {
      DropDrop(data, i, 1);
      Assoc(before, [byte], Rle1(data[i + 1..]));
    }
  }

  method Rle1Encode(data: seq<Byte>) returns (output: seq<Byte>)
    ensures output == Rle1(data)
  {
    hide RunLength, Rle1;
    assert data[0..] == data;
    output := [];
    var i: nat := 0;
    while i < |data|
      invariant i <= |data| && output + Rle1(data[i..]) == Rle1(data)
    {
      var byte := data[i];
      var runLen := MeasureRun(data, i);
      Rle1Step(data, i, output);
      if runLen >= 4 {
        output := output + [byte, byte, byte, byte];
        output := output + [runLen - 4];
        i := i + runLen;
      } else {
        output := output + [byte];
        i := i + 1;
      }
    }
    assert Rle1([]) == [] by { Rle1Nothing(); }
    NothingMore(output, data, i);
  }

  lemma Rle1Nothing()
    ensures Rle1([]) == []
  {
  }

  method MeasureRun(data: seq<Byte>, i: nat) returns (runLen: nat)
    requires i < |data|
    ensures runLen == RunLength(data[i..], 255)
  {
    runLen := 1;
    while i + runLen < |data| && data[i + runLen] == data[i] && runLen < 255
      invariant 1 <= runLen <= 255 && i + runLen <= |data|
      invariant forall h :: 0 <= h < runLen ==> data[i..][h] == data[i]
      decreases |data| - runLen
    {
      runLen := runLen + 1;
    }
    RunScanned(data, i, runLen);
  }

  method Rle1Decode(data: seq<Byte>) returns (output: seq<Byte>)
    ensures output == Unrle1(data)
  {
    output := [];
    var i: nat := 0;
    while i < |data|
      invariant i <= |data| && output + Unrle1(data[i..]) == Unrle1(data)
    {
      ghost var rest, before := data[i..], output;
      output := output + [data[i]];
      if i + 3 < |data| && data[i] == data[i + 1] && data[i] == data[i + 2] && data[i] == data[i + 3] {
        assert FourEqual(rest);
        output := output + [data[i], data[i], data[i]];
        i := i + 4;
        assert output == before + Rep<Byte>(rest[0], 4);
        if i < |data| {
          var repeat := data[i];
          var k: nat := 0;
          while k < repeat
            invariant k <= repeat && output == before + Rep<Byte>(rest[0], 4 + k)
          {
            output := output + [data[i - 4]];
            k := k + 1;
          }
          i := i + 1;
          DropDrop(data, i - 5, 5);
          Assoc(before, Rep<Byte>(rest[0], 4 + repeat as int), Unrle1(rest[5..]));
        } else {
          assert data[i..] == [];
        }
      } else {
        assert !FourEqual(rest);
        i := i + 1;
        DropDrop(data, i - 1, 1);
        Assoc(before, [rest[0]], Unrle1(rest[1..]));
      }
    }
    NothingMore(output, data, i);
  }

  // ----- runs of rank zero -----

  /** Bijective base 2, least digit first: digit 1 is written 0 (RUNA), digit 2 as 1 (RUNB). */
  function Digits(n: nat): (r: seq<Byte>)
    ensures forall k :: 0 <= k < |r| ==> r[k] <= 1
    ensures n > 0 ==> r != []
  {
    if n == 0 then []
    else if n % 2 == 1 then [0] + Digits((n - 1) / 2)
    else [1] + Digits((n - 2) / 2)
  }

  function DigitValue(r: seq<Byte>): nat {
    if r == [] then 0 else r[0] + 1 + 2 * DigitValue(r[1..])
  }

  lemma {:induction false} DigitsRoundTrip(n: nat)
    ensures DigitValue(Digits(n)) == n
    decreases n
  {
    if n > 0 {
      var m := if n % 2 == 1 then (n - 1) / 2 else (n - 2) / 2;
      DigitsRoundTrip(m);
      assert Digits(n)[1..] == Digits(m);
    }
  }

  /** The number of leading elements that satisfy the test `<= most`. */
  function Leading(d: seq<Byte>, most: Byte): (n: nat)
    ensures n <= |d| && (forall k :: 0 <= k < n ==> d[k] <= most) && (n < |d| ==> d[n] > most)
  {
    if d != [] && d[0] <= most then
      var m := Leading(d[1..], most);
      assert forall k :: 0 < k < m + 1 ==> d[k] == d[1..][k - 1];
      m + 1
    else 0
  }

  /** Ranks are shifted by one to make room for RUNA and RUNB. The addition is on a byte: rank
      255 wraps to RUNA. */
  function Zrle(d: seq<Byte>): seq<Byte>
    decreases |d|
  {
    if d == [] then []
    else if d[0] == 0 then
      var run := Leading(d, 0);
      Digits(run) + Zrle(d[run..])
    else [(d[0] as int + 1) % 256] + Zrle(d[1..])
  }

  function Unzrle(d: seq<Byte>): seq<Byte>
    decreases |d|
  {
    if d == [] then []
    else if d[0] <= 1 then
      var run := Leading(d, 1);
      Rep<Byte>(0, DigitValue(d[..run])) + Unzrle(d[run..])
    else [d[0] - 1] + Unzrle(d[1..])
  }

  lemma {:induction false} LeadingIs(d: seq<Byte>, most: Byte, n: nat)
    requires n <= |d| && (forall k :: 0 <= k < n ==> d[k] <= most) && (n < |d| ==> d[n] > most)
    ensures Leading(d, most) == n
    decreases |d|
  {
    if n > 0 {
      assert forall k :: 0 <= k < n - 1 ==> d[1..][k] == d[k + 1];
      LeadingIs(d[1..], most, n - 1);
    }
  }

  /** zrle_decode(zrle_encode(d)) == d, as long as rank 255 does not occur. */
  lemma {:induction false} ZrleRoundTrip(d: seq<Byte>)
    requires 255 !in d
    ensures Unzrle(Zrle(d)) == d
    ensures d != [] ==> Zrle(d) != [] && (Zrle(d)[0] <= 1 <==> d[0] == 0)
    decreases |d|
  {
    hide Unzrle, Digits;
    if d == [] {
      assert Unzrle([]) == [] by { UnzrleNothing(); }
    } else {
      if d[0] == 0 {
        var run := Leading(d, 0);
        ZrleRoundTrip(d[run..]);
        RunDecoded(run, Zrle(d[run..]));
        assert d == Rep<Byte>(0, run) + d[run..];
      } else {
        assert 255 !in d[1..] && d[0] != 255;
        ZrleRoundTrip(d[1..]);
        RankDecoded(d[0], Zrle(d[1..]));
        assert d == [d[0]] + d[1..];
      }
    }
  }

  lemma UnzrleNothing()
    ensures Unzrle([]) == []
  {
  }

  /** The digits of a run, and then something that is no digit. */
  lemma RunDecoded(run: nat, tail: seq<Byte>)
    requires run > 0 && (tail != [] ==> tail[0] > 1)
    ensures Unzrle(Digits(run) + tail) == Rep<Byte>(0, run) + Unzrle(tail)
    ensures Digits(run) != [] && (Digits(run) + tail)[0] <= 1
  {
    hide Unzrle, DigitValue, Digits, Leading;
    var digits := Digits(run);
    var e := digits + tail;
    DigitsRoundTrip(run);
    assert forall k :: 0 <= k < |digits| ==> e[k] == digits[k];
    LeadingIs(e, 1, |digits|);
    assert e[..|digits|] == digits && e[|digits|..] == tail;
    RunFirst(e, |digits|);
  }

  lemma RunFirst(e: seq<Byte>, n: nat)
    requires e != [] && e[0] <= 1 && n == Leading(e, 1)
    ensures Unzrle(e) == Rep<Byte>(0, DigitValue(e[..n])) + Unzrle(e[n..])
  {
  }

  lemma RankDecoded(b: Byte, tail: seq<Byte>)
    requires 0 < b < 255
    ensures Unzrle([b + 1] + tail) == [b] + Unzrle(tail)
  {
    assert ([b + 1] + tail)[1..] == tail;
  }

  /** Whatever was written, no decoded rank reaches 255. */
  lemma {:induction false} UnzrleBound(d: seq<Byte>)
    ensures 255 !in Unzrle(d)
    decreases |d|
  {
    if d != [] {
      if d[0] <= 1 {
        UnzrleBound(d[Leading(d, 1)..]);
      } else {
        UnzrleBound(d[1..]);
      }
    }
  }

  /** The digits of `n`, appended to `before`, least digit first. */
  method WriteDigits(before: seq<Byte>, n0: nat) returns (output: seq<Byte>)
    ensures output == before + Digits(n0)
  {
    output := before;
    var n := n0;
    while n > 0
      invariant output + Digits(n) == before + Digits(n0)
    {
      if n % 2 == 1 {
        Assoc(output, [0], Digits((n - 1) / 2));
        output := output + [0];
        n := (n - 1) / 2;
      } else {
        Assoc(output, [1], Digits((n - 2) / 2));
        output := output + [1];
        n := (n - 2) / 2;
      }
    }
    assert output + [] == output;
  }

  lemma {:induction false} DigitsSize(n: nat)
    ensures |Digits(n)| <= n
    decreases n
  {
    if n > 0 {
      DigitsSize(if n % 2 == 1 then (n - 1) / 2 else (n - 2) / 2);
    }
  }

  lemma {:induction false} ZrleSize(d: seq<Byte>)
    ensures |Zrle(d)| <= |d| && (d != [] ==> Zrle(d) != [])
    decreases |d|
  {
    if d != [] {
      if d[0] == 0 {
        DigitsSize(Leading(d, 0));
        ZrleSize(d[Leading(d, 0)..]);
      } else {
        ZrleSize(d[1..]);
      }
    }
  }

  /** No coded symbol exceeds the largest rank by more than one. */
  lemma {:induction false} ZrleBound(d: seq<Byte>, k: nat)
    requires k >= 1 && forall i :: 0 <= i < |d| ==> d[i] < k
    ensures forall i :: 0 <= i < |Zrle(d)| ==> Zrle(d)[i] <= k
    decreases |d|
  {
    if d != [] {
      if d[0] == 0 {
        ZrleBound(d[Leading(d, 0)..], k);
      } else {
        ZrleBound(d[1..], k);
      }
    }
  }

  method ZrleEncode(data: seq<Byte>) returns (output: seq<Byte>)
    ensures output == Zrle(data)
  {
    hide Digits, Leading;
    output := [];
    var i: nat := 0;
    while i < |data|
      invariant i <= |data| && output + Zrle(data[i..]) == Zrle(data)
    {
      ghost var rest, before := data[i..], output;
      if data[i] == 0 {
        var run: nat := 1;
        while i + run < |data| && data[i + run] == 0
          invariant 1 <= run && i + run <= |data|
          invariant forall k :: 0 <= k < run ==> rest[k] == 0
          decreases |data| - run
        {
          run := run + 1;
        }
        assert i + run < |data| ==> rest[run] == data[i + run];
        LeadingIs(rest, 0, run);
        output := WriteDigits(output, run);
        DropDrop(data, i, run);
        Assoc(before, Digits(run), Zrle(rest[run..]));
        i := i + run;
      } else {
        output := output + [(data[i] as int + 1) % 256];
        i := i + 1;
        DropDrop(data, i - 1, 1);
        Assoc(before, [(rest[0] as int + 1) % 256], Zrle(rest[1..]));
      }
    }
    NothingMore(output, data, i);
  }

  /** The value of digits, read front to back with a growing power. */
  lemma {:induction false} DigitValueSnoc(r: seq<Byte>, b: Byte)
    ensures DigitValue(r + [b]) == DigitValue(r) + Pow2(|r|) * (b + 1)
    decreases |r|
  {
    if r != [] {
      DigitValueSnoc(r[1..], b);
      assert (r + [b])[1..] == r[1..] + [b];
      var p := Pow2(|r| - 1);
      assert 2 * (p * (b + 1)) == (2 * p) * (b + 1);
    }
  }

  /** Reads the run digits at the front of `data[i..]`. */
  method ReadDigits(data: seq<Byte>, i0: nat) returns (run: nat, i: nat)
    requires i0 < |data| && data[i0] <= 1
    ensures i0 < i <= |data| && i - i0 == Leading(data[i0..], 1) && run == DigitValue(data[i0..][..i - i0])
  {
    ghost var rest := data[i0..];
    run, i := 0, i0;
    var power: nat := 1;
    while i < |data| && data[i] <= 1
      invariant i0 <= i <= |data|
      invariant forall k :: 0 <= k < i - i0 ==> rest[k] <= 1
      invariant run == DigitValue(rest[..i - i0]) && power == Pow2(i - i0)
    {
      assert rest[..i - i0 + 1] == rest[..i - i0] + [data[i]];
      DigitValueSnoc(rest[..i - i0], data[i]);
      run := run + power * (data[i] + 1);
      power := power * 2;
      i := i + 1;
    }
    LeadingIs(rest, 1, i - i0) by {
      assert i < |data| ==> rest[i - i0] == data[i];
    }
  }

  method ZrleDecode(data: seq<Byte>) returns (output: seq<Byte>)
    ensures output == Unzrle(data)
  {
    hide Leading, DigitValue;
    output := [];
    var i: nat := 0;
    while i < |data|
      invariant i <= |data| && output + Unzrle(data[i..]) == Unzrle(data)
    {
      ghost var rest, before, start := data[i..], output, i;
      if data[i] <= 1 {
        var run, next := ReadDigits(data, i);
        i := next;
        var k: nat := 0;
        while k < run
          invariant k <= run && output == before + Rep<Byte>(0, k)
        {
          output := output + [0];
          k := k + 1;
        }
        DropDrop(data, start, i - start);
        Assoc(before, Rep<Byte>(0, run), Unzrle(rest[i - start..]));
      } else {
        output := output + [data[i] - 1];
        i := i + 1;
        DropDrop(data, i - 1, 1);
        Assoc(before, [rest[0] - 1], Unzrle(rest[1..]));
      }
    }
    NothingMore(output, data, i);
  }
}
