/** Move-to-front coding over the map of symbols in use. */
module Bzip2Mtf {
  import opened Bytes

  function ToFront(l: seq<Byte>, pos: nat): (r: seq<Byte>)
    requires pos < |l|
    ensures |r| == |l|
  {
    [l[pos]] + l[..pos] + l[pos + 1..]
  }

  ghost predicate NoRepeats(l: seq<Byte>) {
    forall i, j :: 0 <= i < j < |l| ==> l[i] != l[j]
  }

  /** The first place of `b`. */
  function Position(l: seq<Byte>, b: Byte): (pos: nat)
    requires b in l
    ensures pos < |l| && l[pos] == b && b !in l[..pos]
  {
    if l[0] == b then 0
    else
      var p := Position(l[1..], b);
      assert l[..p + 1] == [l[0]] + l[1..][..p];
      p + 1
  }

  lemma ToFrontSame(l: seq<Byte>, pos: nat)
    requires pos < |l|
    ensures forall x :: x in ToFront(l, pos) <==> x in l
    ensures multiset(ToFront(l, pos)) == multiset(l)
  {
    assert l == l[..pos] + [l[pos]] + l[pos + 1..];
    var r := ToFront(l, pos);
    assert multiset(r) == multiset(l);
    forall x ensures x in r <==> x in l {
      assert x in r <==> x in multiset(r);
      assert x in l <==> x in multiset(l);
    }
  }

  /** The list behind the symbol found does not move. */
  lemma ToFrontTail(l: seq<Byte>, pos: nat, k: nat)
    requires pos < k < |l|
    ensures ToFront(l, pos)[k] == l[k]
  {
  }

  function Ranks(data: seq<Byte>, l: seq<Byte>): (r: seq<Byte>)
    requires |l| <= 256 && forall x :: x in data ==> x in l
    ensures |r| == |data|
  {
    if data == [] then []
    else
      var pos := Position(l, data[0]);
      ToFrontSame(l, pos);
      [pos] + Ranks(data[1..], ToFront(l, pos))
  }

  function Unranks(data: seq<Byte>, l: seq<Byte>): seq<Byte> {
    if data == [] then []
    else if data[0] < |l| then [l[data[0]]] + Unranks(data[1..], ToFront(l, data[0]))
    else Unranks(data[1..], l)
  }

  /** mtf_decode(mtf_encode(data)) == data. */
  lemma {:induction false} MtfRoundTrip(data: seq<Byte>, l: seq<Byte>)
    requires |l| <= 256 && forall x :: x in data ==> x in l
    ensures Unranks(Ranks(data, l), l) == data
    decreases |data|
  {
    if data != [] {
      var pos := Position(l, data[0]);
      ToFrontSame(l, pos);
      MtfRoundTrip(data[1..], ToFront(l, pos));
      assert Ranks(data, l)[1..] == Ranks(data[1..], ToFront(l, pos));
    }
  }

  /** The last rank occurs exactly when the last symbol of the list does: nothing moves behind
      it until it is used. */
  lemma {:induction false} LastRank(data: seq<Byte>, l: seq<Byte>)
    requires 0 < |l| <= 256 && NoRepeats(l) && forall x :: x in data ==> x in l
    ensures l[|l| - 1] in data ==> |l| - 1 in Ranks(data, l)
    ensures forall k :: 0 <= k < |data| ==> Ranks(data, l)[k] < |l|
    decreases |data|
  {
    if data != [] {
      var last := |l| - 1;
      var pos := Position(l, data[0]);
      var l' := ToFront(l, pos);
      ToFrontSame(l, pos);
      assert NoRepeats(l') by { ToFrontNoRepeats(l, pos); }
      LastRank(data[1..], l');
      assert Ranks(data, l) == [pos] + Ranks(data[1..], l');
      if pos < last {
        ToFrontTail(l, pos, last);
        if l[last] in data {
          assert l[last] in data[1..];
          assert last in Ranks(data[1..], l');
        }
      }
    }
  }

  lemma ToFrontNoRepeats(l: seq<Byte>, pos: nat)
    requires pos < |l| && NoRepeats(l)
    ensures NoRepeats(ToFront(l, pos))
  {
    var r := ToFront(l, pos);
    forall k | 0 <= k < |r| ensures r[k] == l[if k == 0 then pos else if k <= pos then k - 1 else k] {
    }
  }

  /** Ranks below the last never produce the last symbol. */
  lemma {:induction false} LastNeverDecoded(data: seq<Byte>, l: seq<Byte>)
    requires l != [] && NoRepeats(l) && forall k :: 0 <= k < |data| ==> data[k] < |l| - 1
    ensures l[|l| - 1] !in Unranks(data, l)
    decreases |data|
  {
    if data != [] {
      ToFrontNoRepeats(l, data[0]);
      ToFrontTail(l, data[0], |l| - 1);
      LastNeverDecoded(data[1..], ToFront(l, data[0]));
    }
  }

  // ----- in place -----

  /** Shifts mtf[0..pos] up by one and puts `byte` in front. */
  method MoveToFront(mtf: array<Byte>, pos: nat, byte: Byte)
    requires pos < mtf.Length && mtf[pos] == byte
    modifies mtf
    ensures mtf[..] == ToFront(old(mtf[..]), pos)
  {
    ghost var before := mtf[..];
    var i := pos;
    while i >= 1
      invariant 0 <= i <= pos
      invariant forall k :: 0 <= k <= i || pos < k < mtf.Length ==> mtf[k] == before[k]
      invariant forall k :: i < k <= pos ==> mtf[k] == before[k - 1]
      decreases i
    {
      mtf[i] := mtf[i - 1];
      i := i - 1;
    }
    mtf[0] := byte;
    ghost var after := ToFront(before, pos);
    forall k | 0 <= k < mtf.Length ensures mtf[k] == after[k] {
    }
  }

  method FindPosition(mtf: array<Byte>, byte: Byte) returns (pos: nat)
    requires byte in mtf[..]
    ensures pos < mtf.Length && pos == Position(mtf[..], byte)
  {
    pos := 0;
    while mtf[pos] != byte
      invariant pos < mtf.Length && byte !in mtf[..pos]
      decreases mtf.Length - pos
    {
      assert mtf[..pos + 1] == mtf[..pos] + [mtf[pos]];
      pos := pos + 1;
    }
    PositionIs(mtf[..], byte, pos);
  }

  lemma PositionIs(l: seq<Byte>, b: Byte, pos: nat)
    requires pos < |l| && l[pos] == b && b !in l[..pos]
    ensures b in l && Position(l, b) == pos
  {
    var p := Position(l, b);
    assert forall k :: 0 <= k < pos ==> l[..pos][k] in l[..pos];
    assert forall k :: 0 <= k < p ==> l[..p][k] in l[..p];
  }

  method MtfEncode(data: seq<Byte>, symbolMap: seq<Byte>) returns (output: seq<Byte>)
    requires |symbolMap| <= 256 && forall x :: x in data ==> x in symbolMap
    ensures output == Ranks(data, symbolMap)
  {
    var mtf := new Byte[|symbolMap|](i requires 0 <= i < |symbolMap| => symbolMap[i]);
    assert mtf[..] == symbolMap;
    output := [];
    var i: nat := 0;
    while i < |data|
      invariant i <= |data| && mtf.Length == |symbolMap|
      invariant forall x :: x in data[i..] ==> x in mtf[..]
      invariant output + Ranks(data[i..], mtf[..]) == Ranks(data, symbolMap)
    {
      ghost var l, rest := mtf[..], data[i..];
      assert data[i] in rest;
      var pos := FindPosition(mtf, data[i]);
      ToFrontSame(l, pos);
      assert rest[1..] == data[i + 1..];
      Assoc(output, [pos], Ranks(rest[1..], ToFront(l, pos)));
      output := output + [pos];
      MoveToFront(mtf, pos, data[i]);
      i := i + 1;
    }
    assert data[i..] == [] && output + [] == output;
  }

  method MtfDecode(data: seq<Byte>, symbolMap: seq<Byte>) returns (output: seq<Byte>)
    ensures output == Unranks(data, symbolMap)
  {
    var mtf := new Byte[|symbolMap|](i requires 0 <= i < |symbolMap| => symbolMap[i]);
    assert mtf[..] == symbolMap;
    output := [];
    var i: nat := 0;
    while i < |data|
      invariant i <= |data|
      invariant output + Unranks(data[i..], mtf[..]) == Unranks(data, symbolMap)
    {
      ghost var l, rest := mtf[..], data[i..];
      assert rest[1..] == data[i + 1..];
      var pos := data[i];
      if pos < mtf.Length {
        var byte := mtf[pos];
        Assoc(output, [byte], Unranks(rest[1..], ToFront(l, pos)));
        output := output + [byte];
        MoveToFront(mtf, pos, byte);
      }
      i := i + 1;
    }
    assert data[i..] == [] && output + [] == output;
  }
}
