/** The code of an expression at a given address, as a function, and the code builder that
    produces it by pushing and back-patching. */
module RegexCode {
  import opened Bytes
  import opened RegexSyntax
  import opened RegexMachine

  const MAX_PROG_LEN: nat := 1048576

  function Code(a: Ast, b: nat): seq<Inst>
    decreases a, 0, 0
  {
    match a
    case Empty => []
    case Lit(c) => [IChar(c)]
    case Any => [IAny]
    case Class(ms, neg) => [IClass(ms, neg)]
    case Start => [IStart]
    case End => [IEnd]
    case Concat(items) => CodeSeq(items, b)
    case Group(n, inner) => [ISave(2 * n)] + Code(inner, b + 1) + [ISave(2 * n + 1)]
    case Alt(branches) =>
      if branches == [] then []
      else AltBlocks(branches, |branches| - 1, b, AltEnd(branches, b)) + AltLast(branches, b)
    case Star(inner) => CodeStar(inner, b)
    case Plus(inner) =>
      var c := Code(inner, b);
      c + [ISplit(b, b + |c| + 1)]
    case Quest(inner) => CodeQuest(inner, b)
    case Repeat(inner, mn, mx) => CodeCopies(inner, mn, b) + CodeRest(inner, mn, mx, b)
  }

  /** What follows the mandatory copies of an interval. */
  function CodeRest(inner: Ast, mn: nat, mx: Option<nat>, b: nat): seq<Inst>
    decreases inner, 4, 0
  {
    var at := b + |CodeCopies(inner, mn, b)|;
    if mx.None? then CodeStar(inner, at)
    else CodeQuests(inner, if mx.value < mn then 0 else mx.value - mn, at)
  }

  function CodeSeq(items: seq<Ast>, b: nat): seq<Inst>
    decreases items, 0, 0
  {
    if items == [] then []
    else
      var last := |items| - 1;
      var c := CodeSeq(items[..last], b);
      c + Code(items[last], b + |c|)
  }

  function CodeStar(inner: Ast, b: nat): seq<Inst>
    decreases inner, 1, 0
  {
    var c := Code(inner, b + 1);
    [ISplit(b + 1, b + |c| + 2)] + c + [IJmp(b)]
  }

  function CodeQuest(inner: Ast, b: nat): seq<Inst>
    decreases inner, 1, 0
  {
    var c := Code(inner, b + 1);
    [ISplit(b + 1, b + |c| + 1)] + c
  }

  /** `n` mandatory copies. */
  function CodeCopies(inner: Ast, n: nat, b: nat): seq<Inst>
    decreases inner, 2, n
  {
    if n == 0 then []
    else
      var c := CodeCopies(inner, n - 1, b);
      c + Code(inner, b + |c|)
  }

  /** `n` optional copies. */
  function CodeQuests(inner: Ast, n: nat, b: nat): seq<Inst>
    decreases inner, 2, n
  {
    if n == 0 then []
    else
      var c := CodeQuests(inner, n - 1, b);
      c + CodeQuest(inner, b + |c|)
  }

  /** The code of the first `k` branches of an alternation, each ending in a jump to `e`. */
  function AltBlocks(branches: seq<Ast>, k: nat, b: nat, e: nat): (r: seq<Inst>)
    requires k <= |branches|
    decreases branches, 1, k
  {
    if k == 0 then []
    else
      var blocks := AltBlocks(branches, k - 1, b, e);
      blocks + AltBlock(branches, k - 1, b + |blocks|, e)
  }

  function AltBlock(branches: seq<Ast>, k: nat, b: nat, e: nat): seq<Inst>
    requires k < |branches|
    decreases branches, 0, 0
  {
    var c := Code(branches[k], b + 1);
    [ISplit(b + 1, b + |c| + 2)] + c + [IJmp(e)]
  }

  function AltLast(branches: seq<Ast>, b: nat): seq<Inst>
    requires branches != []
    decreases branches, 2, 0
  {
    Code(branches[|branches| - 1], b + |AltBlocks(branches, |branches| - 1, b, 0)|)
  }

  /** The address just past the alternation: where every branch jumps to. */
  function AltEnd(branches: seq<Ast>, b: nat): nat
    requires branches != []
    decreases branches, 3, 0
  {
    b + |AltBlocks(branches, |branches| - 1, b, 0)| + |AltLast(branches, b)|
  }

  /** The addresses of the jumps that end the first `k` branches. */
  function JumpSites(branches: seq<Ast>, k: nat, b: nat): seq<nat>
    requires k <= |branches|
  {
    if k == 0 then []
    else
      var start := b + |AltBlocks(branches, k - 1, b, 0)|;
      JumpSites(branches, k - 1, b) + [start + |Code(branches[k - 1], start + 1)| + 1]
  }

  /** The jump target changes neither the length of the blocks nor anything but the jumps. */
  lemma {:induction false} BlocksDifferAtJumps(branches: seq<Ast>, k: nat, b: nat, e: nat, e': nat)
    requires k <= |branches|
    ensures |AltBlocks(branches, k, b, e)| == |AltBlocks(branches, k, b, e')|
    ensures forall p :: 0 <= p < |AltBlocks(branches, k, b, e)| ==>
              AltBlocks(branches, k, b, e')[p] ==
              (if b + p in JumpSites(branches, k, b) then IJmp(e') else AltBlocks(branches, k, b, e)[p])
    ensures forall j :: j in JumpSites(branches, k, b) ==> b <= j < b + |AltBlocks(branches, k, b, e)|
    decreases k
  {
    hide Code;
    if k > 0 {
      BlocksDifferAtJumps(branches, k - 1, b, e, e');
      BlocksDifferAtJumps(branches, k - 1, b, e, 0);
      var l := AltBlocks(branches, k - 1, b, e);
      var l' := AltBlocks(branches, k - 1, b, e');
      var r := AltBlock(branches, k - 1, b + |l|, e);
      var r' := AltBlock(branches, k - 1, b + |l|, e');
      var zero := AltBlock(branches, k - 1, b + |l|, 0);
      assert |r| == |r'| == |zero|;
      assert forall p :: 0 <= p < |r| - 1 ==> r[p] == r'[p];
      assert AltBlocks(branches, k, b, e) == l + r && AltBlocks(branches, k, b, e') == l' + r';
      assert JumpSites(branches, k, b) == JumpSites(branches, k - 1, b) + [b + |l| + |r| - 1];
    }
  }

  // ----- the builder -----

  /** `prog` either still holds all that was emitted, or has outgrown the cap for good. */
  ghost predicate Emitted(before: seq<Inst>, code: seq<Inst>, after: seq<Inst>) {
    if |before| + |code| <= MAX_PROG_LEN then after == before + code else |after| > MAX_PROG_LEN
  }

  /** Two emissions in a row. */
  lemma Chain(before: seq<Inst>, c1: seq<Inst>, mid: seq<Inst>, c2: seq<Inst>, after: seq<Inst>)
    requires Emitted(before, c1, mid) && |mid| >= |before| && |after| >= |mid|
    requires |before| + |c1| <= MAX_PROG_LEN ==> Emitted(mid, c2, after)
    ensures Emitted(before, c1 + c2, after)
  {
    if |before| + |c1| + |c2| <= MAX_PROG_LEN {
      assert after == before + (c1 + c2);
    }
  }

  /** An emission between a placeholder that is later patched and a closing part. */
  lemma Patched(before: seq<Inst>, hole: Inst, c: seq<Inst>, mid: seq<Inst>, close: seq<Inst>, patch: Inst,
                after: seq<Inst>)
    requires Emitted(before + [hole], c, mid) && |mid| > |before|
    requires after == (mid + close)[|before| := patch]
    ensures Emitted(before, [patch] + c + close, after)
  {
    if |before| + 1 + |c| <= MAX_PROG_LEN {
      assert mid == before + [hole] + c;
      assert after == before + ([patch] + c + close);
    }
  }

  class Builder {
    var prog: seq<Inst>

    constructor ()
      ensures prog == []
    {
      prog := [];
    }

    /** Appends the code of `a`. Emission stops growing a program that has passed the cap, so
        below the cap nothing is missing, and above it the program stays above. */
    method Emit(a: Ast)
      requires WellFormed(a)
      modifies this
      ensures Emitted(old(prog), Code(a, |old(prog)|), prog)
      ensures |prog| >= |old(prog)|
      decreases a, 1
    {
      if |prog| > MAX_PROG_LEN {
        return;
      }
      match a
      case Empty =>
      case Lit(c) => prog := prog + [IChar(c)];
      case Any => prog := prog + [IAny];
      case Class(ms, neg) => prog := prog + [IClass(ms, neg)];
      case Start => prog := prog + [IStart];
      case End => prog := prog + [IEnd];
      case Concat(items) => EmitConcat(items);
      case Group(n, inner) =>
        prog := prog + [ISave(2 * n)];
        Emit(inner);
        ghost var mid := prog;
        prog := prog + [ISave(2 * n + 1)];
        var c := Code(inner, |old(prog)| + 1);
        Chain(old(prog), [ISave(2 * n)], old(prog) + [ISave(2 * n)], c, mid);
        Chain(old(prog), [ISave(2 * n)] + c, mid, [ISave(2 * n + 1)], prog);
      case Alt(branches) => EmitAlt(branches);
      case Star(inner) => EmitStar(inner);
      case Plus(inner) =>
        var body := |prog|;
        Emit(inner);
        ghost var mid := prog;
        var sp := |prog|;
        prog := prog + [ISplit(0, 0)];
        prog := prog[sp := ISplit(body, |prog|)];
        Chain(old(prog), Code(inner, body), mid, [ISplit(body, sp + 1)], prog);
      case Quest(inner) => EmitQuest(inner);
      case Repeat(inner, mn, mx) => EmitRepeat(inner, mn, mx);
    }

    method EmitConcat(items: seq<Ast>)
      requires WellFormedSeq(items)
      modifies this
      ensures Emitted(old(prog), CodeSeq(items, |old(prog)|), prog)
      ensures |prog| >= |old(prog)|
      decreases items, 0
    {
      ghost var b := |prog|;
      var i := 0;
      while i < |items|
        invariant i <= |items|
        invariant Emitted(old(prog), CodeSeq(items[..i], b), prog)
        invariant |prog| >= b
      {
        ghost var mid, c := prog, CodeSeq(items[..i], b);
        Emit(items[i]);
        assert items[..i + 1][..i] == items[..i];
        Chain(old(prog), c, mid, Code(items[i], b + |c|), prog);
        i := i + 1;
      }
      assert items[..i] == items;
    }

    method EmitRepeat(inner: Ast, mn: nat, mx: Option<nat>)
      requires WellFormed(inner) && (mx.Some? ==> mn <= mx.value)
      modifies this
      ensures Emitted(old(prog), Code(Repeat(inner, mn, mx), |old(prog)|), prog)
      ensures |prog| >= |old(prog)|
      decreases inner, 3
    {
      hide CodeCopies, CodeStar, CodeQuests;
      ghost var b := |prog|;
      EmitCopies(inner, mn);
      ghost var mid, copies := prog, CodeCopies(inner, mn, b);
      match mx {
        case None =>
          EmitStar(inner);
          Chain(old(prog), copies, mid, CodeStar(inner, b + |copies|), prog);
        case Some(m) =>
          EmitQuests(inner, m - mn);
          Chain(old(prog), copies, mid, CodeQuests(inner, m - mn, b + |copies|), prog);
      }
    }

    method EmitCopies(inner: Ast, n: nat)
      requires WellFormed(inner)
      modifies this
      ensures Emitted(old(prog), CodeCopies(inner, n, |old(prog)|), prog)
      ensures |prog| >= |old(prog)|
      decreases inner, 2, 1
    {
      hide Code;
      ghost var b := |prog|;
      var i := 0;
      while i < n
        invariant i <= n
        invariant Emitted(old(prog), CodeCopies(inner, i, b), prog)
        invariant |prog| >= b
      {
        ghost var mid, c := prog, CodeCopies(inner, i, b);
        Emit(inner);
        Chain(old(prog), c, mid, Code(inner, b + |c|), prog);
        i := i + 1;
      }
    }

    method EmitQuests(inner: Ast, n: nat)
      requires WellFormed(inner)
      modifies this
      ensures Emitted(old(prog), CodeQuests(inner, n, |old(prog)|), prog)
      ensures |prog| >= |old(prog)|
      decreases inner, 2, 1
    {
      hide Code;
      ghost var b := |prog|;
      var i := 0;
      while i < n
        invariant i <= n
        invariant Emitted(old(prog), CodeQuests(inner, i, b), prog)
        invariant |prog| >= b
      {
        ghost var mid, c := prog, CodeQuests(inner, i, b);
        EmitQuest(inner);
        Chain(old(prog), c, mid, CodeQuest(inner, b + |c|), prog);
        i := i + 1;
      }
    }

    method EmitAlt(branches: seq<Ast>)
      requires branches != [] && WellFormedSeq(branches) && |prog| <= MAX_PROG_LEN
      modifies this
      ensures Emitted(old(prog), Code(Alt(branches), |old(prog)|), prog)
      ensures |prog| >= |old(prog)|
      decreases branches, 0
    {
      ghost var b := |prog|;
      var jmps: seq<nat> := [];
      var i := 0;
      while i + 1 < |branches|
        invariant i < |branches|
        invariant |prog| >= b
        invariant forall k :: 0 <= k < |jmps| ==> jmps[k] < |prog|
        invariant Emitted(old(prog), AltBlocks(branches, i, b, 0), prog)
        invariant |prog| <= MAX_PROG_LEN ==> jmps == JumpSites(branches, i, b)
      {
        ghost var mid, blocks := prog, AltBlocks(branches, i, b, 0);
        var sp := |prog|;
        prog := prog + [ISplit(0, 0)];
        var astart := |prog|;
        Emit(branches[i]);
        ghost var bodied := prog;
        var jp := |prog|;
        prog := prog + [IJmp(0)];
        jmps := jmps + [jp];
        var next := |prog|;
        prog := prog[sp := ISplit(astart, next)];
        ghost var c := Code(branches[i], astart);
        Patched(mid, ISplit(0, 0), c, bodied, [IJmp(0)], ISplit(astart, next), prog);
        assert |prog| <= MAX_PROG_LEN ==> next == sp + |c| + 2;
        Chain(old(prog), blocks, mid, AltBlock(branches, i, b + |blocks|, 0), prog);
        i := i + 1;
      }
      ghost var blocks, last := AltBlocks(branches, i, b, 0), AltLast(branches, b);
      ghost var mid := prog;
      Emit(branches[i]);
      Chain(old(prog), blocks, mid, last, prog);
      var end := |prog|;
      ghost var unpatched := prog;
      PatchAll(jmps, end);
      PatchedJumps(branches, b, old(prog), unpatched, jmps, prog);
    }

    /** Sends the jumps at the given places to `end`. */
    method PatchAll(jmps: seq<nat>, end: nat)
      requires forall k :: 0 <= k < |jmps| ==> jmps[k] < |prog|
      modifies this
      ensures |prog| == |old(prog)|
      ensures forall p :: 0 <= p < |prog| ==> prog[p] == if p in jmps then IJmp(end) else old(prog[p])
    {
      var j := 0;
      while j < |jmps|
        invariant j <= |jmps| && |prog| == |old(prog)|
        invariant forall p :: 0 <= p < |prog| ==>
          prog[p] == if p in jmps[..j] then IJmp(end) else old(prog[p])
      {
        prog := prog[jmps[j] := IJmp(end)];
        assert jmps[..j + 1] == jmps[..j] + [jmps[j]];
        j := j + 1;
      }
      assert jmps[..j] == jmps;
    }

    method EmitStar(inner: Ast)
      requires WellFormed(inner)
      modifies this
      ensures Emitted(old(prog), CodeStar(inner, |old(prog)|), prog)
      ensures |prog| >= |old(prog)|
      decreases inner, 2, 0
    {
      hide Code;
      if |prog| > MAX_PROG_LEN {
        return;
      }
      var sp := |prog|;
      prog := prog + [ISplit(0, 0)];
      var body := |prog|;
      Emit(inner);
      ghost var mid := prog;
      prog := prog + [IJmp(sp)];
      var out := |prog|;
      prog := prog[sp := ISplit(body, out)];
      Patched(old(prog), ISplit(0, 0), Code(inner, body), mid, [IJmp(sp)], ISplit(body, out), prog);
    }

    method EmitQuest(inner: Ast)
      requires WellFormed(inner)
      modifies this
      ensures Emitted(old(prog), CodeQuest(inner, |old(prog)|), prog)
      ensures |prog| >= |old(prog)|
      decreases inner, 2, 0
    {
      hide Code;
      if |prog| > MAX_PROG_LEN {
        return;
      }
      var sp := |prog|;
      prog := prog + [ISplit(0, 0)];
      var body := |prog|;
      Emit(inner);
      ghost var mid := prog;
      var out := |prog|;
      prog := prog[sp := ISplit(body, out)];
      Patched(old(prog), ISplit(0, 0), Code(inner, body), mid, [], ISplit(body, out), prog);
    }
  }

  /** Patching every recorded jump turns the placeholder blocks into the final ones. */
  lemma PatchedJumps(branches: seq<Ast>, b: nat, before: seq<Inst>, unpatched: seq<Inst>, jmps: seq<nat>,
                     after: seq<Inst>)
    requires branches != [] && |before| == b <= MAX_PROG_LEN
    requires Emitted(before, AltBlocks(branches, |branches| - 1, b, 0) + AltLast(branches, b), unpatched)
    requires |unpatched| <= MAX_PROG_LEN ==> jmps == JumpSites(branches, |branches| - 1, b)
    requires |after| == |unpatched|
    requires forall p :: 0 <= p < |after| ==>
               after[p] == if p in jmps then IJmp(|unpatched|) else unpatched[p]
    ensures Emitted(before, Code(Alt(branches), b), after)
  {
    var k := |branches| - 1;
    var end := AltEnd(branches, b);
    var blocks, last := AltBlocks(branches, k, b, 0), AltLast(branches, b);
    BlocksDifferAtJumps(branches, k, b, 0, end);
    if b + |blocks| + |last| <= MAX_PROG_LEN {
      assert unpatched == before + (blocks + last);
      assert after == before + (AltBlocks(branches, k, b, end) + last);
    }
  }
}
