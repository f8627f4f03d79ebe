/** The compiler keeps the ways of an expression: the runs through the code of `a`, with the
    decisions they take at its splits, are exactly the ways of `a`. */
module RegexCompiler {
  import opened Bytes
  import opened RegexSyntax
  import opened RegexWays
  import opened RegexMachine
  import opened RegexCode
  import opened RegexTrace

  // ----- how much room code takes -----

  /** An expression has as many places as its code has instructions. */
  lemma {:induction false} CodeSize(a: Ast, b: nat)
    ensures |Code(a, b)| == Size(a)
    decreases a, 0, 0
  {
    hide CodeSeq, CodeCopies, CodeQuests, AltBlocks, SizeSeq, SizeBlocks, SizeLast;
    match a
    case Concat(items) => SeqSize(items, b);
    case Group(_, inner) => CodeSize(inner, b + 1);
    case Alt(branches) => if branches != [] { AltSize(branches, b, AltEnd(branches, b)); }
    case Star(inner) => StarSize(inner, b);
    case Plus(inner) => CodeSize(inner, b);
    case Quest(inner) => CodeSize(inner, b + 1);
    case Repeat(inner, mn, mx) => RepeatSize(inner, mn, mx, b);
    case _ =>
  }

  lemma {:induction false} RepeatSize(inner: Ast, mn: nat, mx: Option<nat>, b: nat)
    ensures |Code(Repeat(inner, mn, mx), b)| == Size(Repeat(inner, mn, mx))
    decreases inner, 3, 0
  {
    hide CodeCopies, CodeQuests, CodeStar, Room;
    CopiesSize(inner, mn, b);
    var at := b + |CodeCopies(inner, mn, b)|;
    if mx.None? {
      StarSize(inner, at);
    } else {
      QuestsSize(inner, Rest(mn, mx.value), at);
    }
  }

  lemma {:induction false} StarSize(inner: Ast, b: nat)
    ensures |CodeStar(inner, b)| == Size(inner) + 2
    decreases inner, 1, 0
  {
    hide Code;
    CodeSize(inner, b + 1);
  }

  lemma {:induction false} SeqSize(items: seq<Ast>, b: nat)
    ensures |CodeSeq(items, b)| == SizeSeq(items)
    decreases items, 0, 0
  {
    hide Code;
    if items != [] {
      var init, last := items[..|items| - 1], items[|items| - 1];
      SeqSize(init, b);
      CodeSize(last, b + |CodeSeq(init, b)|);
    }
  }

  lemma {:induction false} CopiesSize(inner: Ast, n: nat, b: nat)
    ensures |CodeCopies(inner, n, b)| == Room(n, Size(inner))
    decreases inner, 2, n
  {
    hide Code;
    if n > 0 {
      CopiesSize(inner, n - 1, b);
      CodeSize(inner, b + |CodeCopies(inner, n - 1, b)|);
    }
  }

  lemma {:induction false} QuestsSize(inner: Ast, n: nat, b: nat)
    ensures |CodeQuests(inner, n, b)| == Room(n, Size(inner) + 1)
    decreases inner, 2, n
  {
    hide Code;
    if n > 0 {
      QuestsSize(inner, n - 1, b);
      CodeSize(inner, b + |CodeQuests(inner, n - 1, b)| + 1);
    }
  }

  lemma {:induction false} BlocksSize(branches: seq<Ast>, k: nat, b: nat, e: nat)
    requires k <= |branches|
    ensures |AltBlocks(branches, k, b, e)| == SizeBlocks(branches, k)
    decreases branches, 1, k
  {
    hide Code;
    if k > 0 {
      BlocksSize(branches, k - 1, b, e);
      CodeSize(branches[k - 1], b + |AltBlocks(branches, k - 1, b, e)| + 1);
    }
  }

  lemma {:induction false} AltSize(branches: seq<Ast>, b: nat, e: nat)
    requires branches != []
    ensures |AltLast(branches, b)| == SizeLast(branches)
    ensures |AltBlocks(branches, |branches| - 1, b, e)| == SizeBlocks(branches, |branches| - 1)
    decreases branches, 2, 0
  {
    hide Code;
    var last := |branches| - 1;
    BlocksSize(branches, last, b, e);
    CodeSize(branches[last], b + |AltBlocks(branches, last, b, 0)|);
  }

  // ----- where code sits -----

  lemma AtSplit(prog: seq<Inst>, b: nat, c1: seq<Inst>, c2: seq<Inst>)
    requires At(prog, b, c1 + c2)
    ensures At(prog, b, c1) && At(prog, b + |c1|, c2)
  {
    var whole := prog[b..b + |c1 + c2|];
    assert whole[..|c1|] == c1 && whole[|c1|..] == c2;
  }

  lemma AtIndex(prog: seq<Inst>, b: nat, c: seq<Inst>, k: nat)
    requires At(prog, b, c) && k < |c|
    ensures prog[b + k] == c[k]
  {
    assert prog[b..b + |c|][k] == c[k];
  }

  /** Every target of `code` at `b` lies in [lo, hi]. */
  ghost predicate Lands(code: seq<Inst>, b: nat, lo: nat, hi: nat) {
    forall k :: 0 <= k < |code| ==> TargetsWithin(code[k], b + k, lo, hi)
  }

  lemma LandsConcat(c1: seq<Inst>, c2: seq<Inst>, b: nat, lo: nat, mid: nat, lo': nat, hi: nat)
    requires Lands(c1, b, lo, mid) && Lands(c2, b + |c1|, lo', hi)
    requires lo <= lo' && mid <= hi
    ensures Lands(c1 + c2, b, lo, hi)
  {
    forall k | 0 <= k < |c1 + c2| ensures TargetsWithin((c1 + c2)[k], b + k, lo, hi) {
      if k >= |c1| {
        assert TargetsWithin(c2[k - |c1|], b + |c1| + (k - |c1|), lo', hi);
      } else {
        assert TargetsWithin(c1[k], b + k, lo, mid);
      }
    }
  }

  lemma LandsThen(c1: seq<Inst>, c2: seq<Inst>, b: nat)
    requires Lands(c1, b, b, b + |c1|) && Lands(c2, b + |c1|, b + |c1|, b + |c1| + |c2|)
    ensures Lands(c1 + c2, b, b, b + |c1| + |c2|)
  {
    LandsConcat(c1, c2, b, b, b + |c1|, b + |c1|, b + |c1| + |c2|);
  }

  /** Control never leaves the code of an expression except by falling off its end. */
  lemma {:induction false} CodeLands(a: Ast, b: nat)
    requires WellFormed(a)
    ensures Lands(Code(a, b), b, b, b + |Code(a, b)|)
    decreases a, 0, 0
  {
    hide Lands, CodeSeq, CodeStar, CodeQuest, CodeCopies, CodeRest, AltBlocks, AltBlock, AltLast;
    match a
    case Concat(items) => ConcatLands(items, b);
    case Group(n, inner) => GroupLands(n, inner, b);
    case Alt(branches) => AltLands(branches, b);
    case Star(inner) => StarLands(inner, b);
    case Plus(inner) => PlusLands(inner, b);
    case Quest(inner) => QuestLands(inner, b);
    case Repeat(inner, mn, mx) => RepeatLands(inner, mn, mx, b);
    case _ => AtomLands(a, b);
  }

  lemma AtomLands(a: Ast, b: nat)
    requires a.Empty? || a.Lit? || a.Any? || a.Class? || a.Start? || a.End?
    ensures Lands(Code(a, b), b, b, b + |Code(a, b)|)
  {
  }

  lemma {:induction false} ConcatLands(items: seq<Ast>, b: nat)
    requires WellFormedSeq(items)
    ensures Lands(Code(Concat(items), b), b, b, b + |Code(Concat(items), b)|)
    decreases items, 1, 0
  {
    SeqLands(items, b);
  }

  lemma {:induction false} GroupLands(n: nat, inner: Ast, b: nat)
    requires WellFormed(inner)
    ensures Lands(Code(Group(n, inner), b), b, b, b + |Code(Group(n, inner), b)|)
    decreases inner, 1, 0
  {
    CodeLands(inner, b + 1);
    var c := Code(inner, b + 1);
    LandsConcat([ISave(2 * n)], c, b, b, b + 1, b + 1, b + 1 + |c|);
    LandsConcat([ISave(2 * n)] + c, [ISave(2 * n + 1)], b, b, b + 1 + |c|, b, b + |c| + 2);
  }

  lemma {:induction false} AltLands(branches: seq<Ast>, b: nat)
    requires branches != [] && WellFormedSeq(branches)
    ensures Lands(Code(Alt(branches), b), b, b, b + |Code(Alt(branches), b)|)
    decreases branches, 2, 0
  {
    var last, e := |branches| - 1, AltEnd(branches, b);
    BlocksDifferAtJumps(branches, last, b, 0, e);
    BlocksLand(branches, last, b, e);
    CodeLands(branches[last], b + |AltBlocks(branches, last, b, 0)|);
    LandsConcat(AltBlocks(branches, last, b, e), AltLast(branches, b), b, b, e, b
        + |AltBlocks(branches, last, b, 0)|, e);
  }

  lemma SplitLands(b: nat, at: nat)
    requires b <= at
    ensures Lands([ISplit(b, at + 1)], at, b, at + 1)
  {
  }

  lemma {:induction false} PlusLands(inner: Ast, b: nat)
    requires WellFormed(inner)
    ensures Lands(Code(Plus(inner), b), b, b, b + |Code(Plus(inner), b)|)
    decreases inner, 1, 0
  {
    hide Lands, CodeSeq, CodeStar, CodeQuest, CodeCopies, CodeRest, AltBlocks, AltBlock, AltLast;
    CodeLands(inner, b);
    var c := Code(inner, b);
    SplitLands(b, b + |c|);
    LandsConcat(c, [ISplit(b, b + |c| + 1)], b, b, b + |c|, b, b + |c| + 1);
  }

  lemma {:induction false} RepeatLands(inner: Ast, mn: nat, mx: Option<nat>, b: nat)
    requires WellFormed(inner) && (mx.Some? ==> mn <= mx.value)
    ensures Lands(Code(Repeat(inner, mn, mx), b), b, b, b + |Code(Repeat(inner, mn, mx), b)|)
    decreases inner, 3, 0
  {
    hide Lands, CodeStar, CodeCopies, CodeQuest;
    CopiesLand(inner, mn, b);
    var c := CodeCopies(inner, mn, b);
    if mx.None? {
      StarLands(inner, b + |c|);
    } else {
      QuestsLand(inner, mx.value - mn, b + |c|);
    }
    LandsThen(c, CodeRest(inner, mn, mx, b), b);
  }

  lemma {:induction false} SeqLands(items: seq<Ast>, b: nat)
    requires WellFormedSeq(items)
    ensures Lands(CodeSeq(items, b), b, b, b + |CodeSeq(items, b)|)
    decreases items, 0, 0
  {
    hide Code;
    if items != [] {
      var last := |items| - 1;
      SeqLands(items[..last], b);
      var c := CodeSeq(items[..last], b);
      CodeLands(items[last], b + |c|);
      var d := Code(items[last], b + |c|);
      LandsThen(c, d, b);
    }
  }

  lemma {:induction false} StarLands(inner: Ast, b: nat)
    requires WellFormed(inner)
    ensures Lands(CodeStar(inner, b), b, b, b + |CodeStar(inner, b)|)
    decreases inner, 1, 0
  {
    hide Code;
    CodeLands(inner, b + 1);
    var c := Code(inner, b + 1);
    var sp := ISplit(b + 1, b + |c| + 2);
    LandsConcat([sp], c, b, b, b + |c| + 2, b + 1, b + |c| + 2) by {
      assert Lands(c, b + 1, b + 1, b + |c| + 2);
    }
    LandsConcat([sp] + c, [IJmp(b)], b, b, b + |c| + 2, b, b + |c| + 2);
  }

  lemma {:induction false} QuestLands(inner: Ast, b: nat)
    requires WellFormed(inner)
    ensures Lands(CodeQuest(inner, b), b, b, b + |CodeQuest(inner, b)|)
    decreases inner, 1, 0
  {
    hide Code;
    CodeLands(inner, b + 1);
    var c := Code(inner, b + 1);
    LandsConcat([ISplit(b + 1, b + |c| + 1)], c, b, b, b + |c| + 1, b + 1, b + |c| + 1);
  }

  lemma {:induction false} CopiesLand(inner: Ast, n: nat, b: nat)
    requires WellFormed(inner)
    ensures Lands(CodeCopies(inner, n, b), b, b, b + |CodeCopies(inner, n, b)|)
    decreases inner, 2, n
  {
    hide Code;
    if n > 0 {
      CopiesLand(inner, n - 1, b);
      var c := CodeCopies(inner, n - 1, b);
      CodeLands(inner, b + |c|);
      var d := Code(inner, b + |c|);
      LandsThen(c, d, b);
    }
  }

  lemma {:induction false} QuestsLand(inner: Ast, n: nat, b: nat)
    requires WellFormed(inner)
    ensures Lands(CodeQuests(inner, n, b), b, b, b + |CodeQuests(inner, n, b)|)
    decreases inner, 2, n
  {
    hide Code;
    if n > 0 {
      QuestsLand(inner, n - 1, b);
      var c := CodeQuests(inner, n - 1, b);
      QuestLands(inner, b + |c|);
      var d := CodeQuest(inner, b + |c|);
      LandsThen(c, d, b);
    }
  }

  lemma {:induction false} BlocksLand(branches: seq<Ast>, k: nat, b: nat, e: nat)
    requires k < |branches| && WellFormedSeq(branches)
    requires b + |AltBlocks(branches, k, b, e)| <= e
    ensures Lands(AltBlocks(branches, k, b, e), b, b, e)
    decreases branches, 1, k
  {
    hide Code;
    if k > 0 {
      BlocksLand(branches, k - 1, b, e);
      var blocks := AltBlocks(branches, k - 1, b, e);
      var s := b + |blocks|;
      CodeLands(branches[k - 1], s + 1);
      var c := Code(branches[k - 1], s + 1);
      LandsConcat([ISplit(s + 1, s + |c| + 2)], c, s, b, e, b, e);
      LandsConcat([ISplit(s + 1, s + |c| + 2)] + c, [IJmp(e)], s, b, e, b, e);
      LandsConcat(blocks, AltBlock(branches, k - 1, s, e), b, b, e, b, e);
    }
  }

  /** Where a fragment sits in the program, control stays between its first address and its end. */
  lemma FragmentClosed(prog: seq<Inst>, a: Ast, b: nat)
    requires WellFormed(a) && At(prog, b, Code(a, b))
    ensures forall pc :: b <= pc < b + |Code(a, b)| ==> TargetsWithin(prog[pc], pc, b, b + |Code(a, b)|)
  {
    CodeLands(a, b);
    var c := Code(a, b);
    forall pc | b <= pc < b + |c| ensures TargetsWithin(prog[pc], pc, b, b + |c|) {
      AtIndex(prog, b, c, pc - b);
      assert TargetsWithin(c[pc - b], b + (pc - b), b, b + |c|);
    }
  }

  lemma {:induction false} AltBlockAt(prog: seq<Inst>, branches: seq<Ast>, k: nat, n: nat, b: nat, e: nat)
    requires k < n <= |branches| && At(prog, b, AltBlocks(branches, n, b, e))
    ensures At(prog, b + |AltBlocks(branches, k, b, e)|,
               AltBlock(branches, k, b + |AltBlocks(branches, k, b, e)|, e))
    decreases n
  {
    var blocks := AltBlocks(branches, n - 1, b, e);
    AtSplit(prog, b, blocks, AltBlock(branches, n - 1, b + |blocks|, e));
    if k < n - 1 {
      AltBlockAt(prog, branches, k, n - 1, b, e);
    }
  }

  // ----- the parts of a piece of code -----

  lemma QuestAt(prog: seq<Inst>, inner: Ast, b: nat)
    requires At(prog, b, CodeQuest(inner, b))
    ensures var c := Code(inner, b + 1);
      b + |c| + 1 <= |prog| && At(prog, b + 1, c) && prog[b] == ISplit(b + 1, b + |c| + 1)
  {
    var c := Code(inner, b + 1);
    var split := ISplit(b + 1, b + |c| + 1);
    AtSplit(prog, b, [split], c);
    AtIndex(prog, b, [split], 0);
  }

  lemma PlusAt(prog: seq<Inst>, c: seq<Inst>, b: nat)
    requires At(prog, b, c + [ISplit(b, b + |c| + 1)])
    ensures b + |c| + 1 <= |prog| && At(prog, b, c) && prog[b + |c|] == ISplit(b, b + |c| + 1)
  {
    var split := ISplit(b, b + |c| + 1);
    AtSplit(prog, b, c, [split]);
    AtIndex(prog, b + |c|, [split], 0);
  }

  lemma GroupAt(prog: seq<Inst>, n: nat, c: seq<Inst>, b: nat)
    requires At(prog, b, [ISave(2 * n)] + c + [ISave(2 * n + 1)])
    ensures b + |c| + 2 <= |prog| && At(prog, b + 1, c)
    ensures prog[b] == ISave(2 * n) && prog[b + 1 + |c|] == ISave(2 * n + 1)
  {
    AtSplit(prog, b, [ISave(2 * n)] + c, [ISave(2 * n + 1)]);
    AtSplit(prog, b, [ISave(2 * n)], c);
    AtIndex(prog, b, [ISave(2 * n)], 0);
    AtIndex(prog, b + 1 + |c|, [ISave(2 * n + 1)], 0);
  }

  /** Branch `k`, not the last, of an alternation: a split, its code, and a jump to the end. */
  lemma BlockAt(prog: seq<Inst>, branches: seq<Ast>, k: nat, b: nat, e: nat)
    requires k + 1 < |branches| && At(prog, b, AltBlocks(branches, |branches| - 1, b, e))
    ensures var sp := b + |AltBlocks(branches, k, b, e)|;
      var c := Code(branches[k], sp + 1);
      && sp + |c| + 2 == b + |AltBlocks(branches, k + 1, b, e)|
      && sp + |c| + 2 <= b + |AltBlocks(branches, |branches| - 1, b, e)| <= |prog|
      && At(prog, sp + 1, c)
      && prog[sp] == ISplit(sp + 1, sp + |c| + 2) && prog[sp + 1 + |c|] == IJmp(e)
  {
    hide Code;
    AltBlockAt(prog, branches, k, |branches| - 1, b, e);
    BlocksGrow(branches, k + 1, |branches| - 1, b, e);
    var sp := b + |AltBlocks(branches, k, b, e)|;
    SplitAndJumpAt(prog, Code(branches[k], sp + 1), sp, e);
  }

  lemma SplitAndJumpAt(prog: seq<Inst>, c: seq<Inst>, b: nat, e: nat)
    requires At(prog, b, [ISplit(b + 1, b + |c| + 2)] + c + [IJmp(e)])
    ensures b + |c| + 2 <= |prog| && At(prog, b + 1, c)
    ensures prog[b] == ISplit(b + 1, b + |c| + 2) && prog[b + 1 + |c|] == IJmp(e)
  {
    var split := ISplit(b + 1, b + |c| + 2);
    AtSplit(prog, b, [split] + c, [IJmp(e)]);
    AtSplit(prog, b, [split], c);
    AtIndex(prog, b, [split], 0);
    AtIndex(prog, b + 1 + |c|, [IJmp(e)], 0);
  }

  lemma {:induction false} BlocksGrow(branches: seq<Ast>, k: nat, n: nat, b: nat, e: nat)
    requires k <= n <= |branches|
    ensures |AltBlocks(branches, k, b, e)| <= |AltBlocks(branches, n, b, e)|
    decreases n - k
  {
    if k < n {
      BlocksGrow(branches, k, n - 1, b, e);
    }
  }

  /** The two parts of an alternation's code, with the final jump target. */
  lemma AltAt(prog: seq<Inst>, branches: seq<Ast>, b: nat)
    requires branches != [] && At(prog, b, Code(Alt(branches), b))
    ensures AltPlaced(prog, branches, b) && AltEnd(branches, b) == b + |Code(Alt(branches), b)|
    ensures AltBlocks(branches, 0, b, AltEnd(branches, b)) == []
  {
    var last, e := |branches| - 1, AltEnd(branches, b);
    BlocksDifferAtJumps(branches, last, b, 0, e);
    AtSplit(prog, b, AltBlocks(branches, last, b, e), AltLast(branches, b));
  }

  ghost predicate AltPlaced(prog: seq<Inst>, branches: seq<Ast>, b: nat)
    requires branches != []
  {
    var last, e := |branches| - 1, AltEnd(branches, b);
    var sl := b + |AltBlocks(branches, last, b, e)|;
    && At(prog, b, AltBlocks(branches, last, b, e))
    && At(prog, sl, Code(branches[last], sl))
    && e == sl + |Code(branches[last], sl)|
  }

  // ----- runs are ways -----

  /** `p`, with the decisions `os`, is a run inside [lo, hi) that begins at address `b` and goes on to `hi`. */
  ghost predicate Enters(m: Machine, b: nat, lo: nat, hi: nat, p: seq<Item>, os: seq<bool>) {
    Traced(m, lo, hi, p, os) && p[0].pc == b && Last(p).pc == hi
  }

  /** `q` is what is left of the run `p` at address `e`; up to there it was the walk `r`. */
  ghost predicate Passed(m: Machine, e: nat, lo: nat, hi: nat, p: seq<Item>, q: seq<Item>, qs: seq<bool>, r: Walk)
    requires p != []
  {
    && Enters(m, e, lo, hi, q, qs) && Last(q) == Last(p) && |q| <= |p|
    && r == Went(SpotOf(q[0]), Decisions(m, q, qs))
  }

  /** A run that enters the code of `a` walks through `a` by the decisions it takes, and goes on
      from the end of the code. */
  lemma {:induction false} Through(m: Machine, a: Ast, b: nat, lo: nat, hi: nat, p: seq<Item>, os: seq<bool>)
      returns (q: seq<Item>, qs: seq<bool>)
    requires WellFormed(a) && At(m.prog, b, Code(a, b)) && lo <= b && b + |Code(a, b)| <= hi
    requires Enters(m, b, lo, hi, p, os)
    ensures Passed(m, b + |Code(a, b)|, lo, hi, p, q, qs, Match(a, b, m.subject, SpotOf(p[0]), Decisions(m, p, os)))
    decreases a, 1, 0
  {
    hide Enters, Decisions, CodeSeq, CodeStar, CodeQuest, CodeCopies, CodeRest, AltBlocks, AltBlock, AltLast;
    hide MatchSeq, MatchAlt, MatchStar, MatchPlus, MatchQuest, MatchCopies, MatchQuests;
    match a {
      case Empty => q, qs := p, os;
      case Concat(items) => q, qs := ThroughSeq(m, items, b, lo, hi, p, os);
      case Group(n, inner) =>
        GroupAt(m.prog, n, Code(inner, b + 1), b);
        q, qs := ThroughGroup(m, n, inner, b, lo, hi, p, os);
      case Alt(branches) =>
        AltAt(m.prog, branches, b);
        q, qs := ThroughAlt(m, branches, 0, b, lo, hi, p, os);
      case Star(_) => q, qs := ThroughLoop(m, a, b, lo, hi, p, os);
      case Plus(_) => q, qs := ThroughLoop(m, a, b, lo, hi, p, os);
      case Quest(_) => q, qs := ThroughLoop(m, a, b, lo, hi, p, os);
      case Repeat(_, _, _) => q, qs := ThroughLoop(m, a, b, lo, hi, p, os);
      case _ => q, qs := ThroughSingle(m, a, b, lo, hi, p, os);
    }
  }

  lemma {:induction false} ThroughLoop(m: Machine, a: Ast, b: nat, lo: nat, hi: nat, p: seq<Item>, os: seq<bool>)
      returns (q: seq<Item>, qs: seq<bool>)
    requires a.Star? || a.Plus? || a.Quest? || a.Repeat?
    requires WellFormed(a) && At(m.prog, b, Code(a, b)) && lo <= b && b + |Code(a, b)| <= hi
    requires Enters(m, b, lo, hi, p, os)
    ensures Passed(m, b + |Code(a, b)|, lo, hi, p, q, qs, Match(a, b, m.subject, SpotOf(p[0]), Decisions(m, p, os)))
    decreases a, 0, 0
  {
    hide Enters, Decisions, CodeSeq, CodeStar, CodeQuest, CodeCopies, CodeRest, AltBlocks, AltBlock, AltLast;
    hide MatchSeq, MatchAlt, MatchStar, MatchPlus, MatchQuest, MatchCopies, MatchQuests;
    var c := Code(a, b);
    match a {
      case Star(inner) =>
        assert c == CodeStar(inner, b);
        q, qs := ThroughStar(m, inner, b, lo, hi, p, os);
      case Plus(inner) =>
        assert c == Code(inner, b) + [ISplit(b, b + |Code(inner, b)| + 1)];
        PlusAt(m.prog, Code(inner, b), b);
        q, qs := ThroughPlus(m, inner, b, lo, hi, p, os);
      case Quest(inner) =>
        assert c == CodeQuest(inner, b);
        q, qs := ThroughQuest(m, inner, b, lo, hi, p, os);
      case Repeat(inner, mn, mx) => q, qs := ThroughRepeat(m, inner, mn, mx, b, lo, hi, p, os);
    }
  }

  /** A run that is not at the end of its range yet takes a step. */
  lemma Step(m: Machine, b: nat, lo: nat, hi: nat, p: seq<Item>, os: seq<bool>)
    requires Enters(m, b, lo, hi, p, os) && b < hi
    ensures os != [] && b < |m.prog| && StepTo(m, p[0], os[0], p[1])
    ensures Enters(m, p[1].pc, lo, hi, p[1..], os[1..]) && Last(p[1..]) == Last(p) && |p[1..]| < |p|
    ensures Decisions(m, p, os) == Decision(m, p[0], os[0]) + Decisions(m, p[1..], os[1..])
  {
    StepOn(m, lo, hi, p, os);
  }

  predicate Single(a: Ast) {
    a.Lit? || a.Any? || a.Class? || a.Start? || a.End?
  }

  lemma ThroughSingle(m: Machine, a: Ast, b: nat, lo: nat, hi: nat, p: seq<Item>, os: seq<bool>)
      returns (q: seq<Item>, qs: seq<bool>)
    requires Single(a) && At(m.prog, b, Code(a, b)) && lo <= b < hi && Enters(m, b, lo, hi, p, os)
    ensures Passed(m, b + 1, lo, hi, p, q, qs, Match(a, b, m.subject, SpotOf(p[0]), Decisions(m, p, os)))
  {
    hide Enters, Decisions;
    AtIndex(m.prog, b, Code(a, b), 0);
    Step(m, b, lo, hi, p, os);
    q, qs := p[1..], os[1..];
    assert p[0].pc == b by { EntersAt(m, b, lo, hi, p, os); }
  }

  lemma EntersAt(m: Machine, b: nat, lo: nat, hi: nat, p: seq<Item>, os: seq<bool>)
    requires Enters(m, b, lo, hi, p, os)
    ensures |p| == |os| + 1 && p[0].pc == b && hi <= |m.prog|
  {
  }

  /** A save writes its slot and goes on; nothing is decided. */
  lemma ThroughSave(m: Machine, slot: nat, b: nat, lo: nat, hi: nat, p: seq<Item>, os: seq<bool>)
    requires Enters(m, b, lo, hi, p, os) && b < hi && b < |m.prog| && m.prog[b] == ISave(slot)
    ensures |p| > 1 && os != [] && Enters(m, b + 1, lo, hi, p[1..], os[1..]) && Last(p[1..]) == Last(p)
    ensures SpotOf(p[1]) == SpotOf(p[0]).(saves := Saved(p[0].saves, slot, p[0].pos))
    ensures Decisions(m, p, os) == Decisions(m, p[1..], os[1..])
  {
    hide Enters, Decisions, Decision;
    EntersAt(m, b, lo, hi, p, os);
    Step(m, b, lo, hi, p, os);
    assert !Splits(m, p[0]);
    Undecided(m, p[0], os[0], Decisions(m, p[1..], os[1..]));
  }

  lemma {:induction false} ThroughGroup(m: Machine, n: nat, inner: Ast, b: nat, lo: nat, hi: nat, p: seq<Item>,
                                        os: seq<bool>)
      returns (q: seq<Item>, qs: seq<bool>)
    requires WellFormed(inner) && At(m.prog, b + 1, Code(inner, b + 1))
    requires var e := b + |Code(inner, b + 1)| + 2;
      lo <= b && e <= hi && e <= |m.prog| && m.prog[b] == ISave(2 * n) && m.prog[e - 1] == ISave(2 * n + 1)
    requires Enters(m, b, lo, hi, p, os)
    ensures Passed(m, b + |Code(inner, b + 1)| + 2, lo, hi, p, q, qs,
                   Match(Group(n, inner), b, m.subject, SpotOf(p[0]), Decisions(m, p, os)))
    decreases inner, 4, 0
  {
    hide Enters, Decisions, Succ, Code;
    var e := b + |Code(inner, b + 1)| + 2;
    ThroughSave(m, 2 * n, b, lo, hi, p, os);
    var p1, os1 := Through(m, inner, b + 1, lo, hi, p[1..], os[1..]);
    ThroughSave(m, 2 * n + 1, e - 1, lo, hi, p1, os1);
    q, qs := p1[1..], os1[1..];
  }

  lemma {:induction false} ThroughSeq(m: Machine, items: seq<Ast>, b: nat, lo: nat, hi: nat, p: seq<Item>,
                                      os: seq<bool>)
      returns (q: seq<Item>, qs: seq<bool>)
    requires WellFormedSeq(items) && At(m.prog, b, CodeSeq(items, b)) && lo <= b && b + |CodeSeq(items, b)| <= hi
    requires Enters(m, b, lo, hi, p, os)
    ensures Passed(m, b + |CodeSeq(items, b)|, lo, hi, p, q, qs,
                   MatchSeq(items, b, m.subject, SpotOf(p[0]), Decisions(m, p, os)))
    decreases items, 0, 0
  {
    hide Enters, Decisions, Code, Match;
    if items == [] {
      q, qs := p, os;
    } else {
      var init, last := items[..|items| - 1], items[|items| - 1];
      var c := CodeSeq(init, b);
      AtSplit(m.prog, b, c, Code(last, b + |c|));
      SeqSize(init, b);
      var p1, os1 := ThroughSeq(m, init, b, lo, hi, p, os);
      q, qs := Through(m, last, b + |c|, lo, hi, p1, os1);
    }
  }

  lemma {:induction false} ThroughQuest(m: Machine, inner: Ast, b: nat, lo: nat, hi: nat, p: seq<Item>, os: seq<bool>)
      returns (q: seq<Item>, qs: seq<bool>)
    requires WellFormed(inner) && At(m.prog, b, CodeQuest(inner, b)) && lo <= b && b + |CodeQuest(inner, b)| <= hi
    requires Enters(m, b, lo, hi, p, os)
    ensures Passed(m, b + |CodeQuest(inner, b)|, lo, hi, p, q, qs,
                   MatchQuest(inner, b, m.subject, SpotOf(p[0]), Decisions(m, p, os)))
    decreases inner, 2, 0
  {
    hide Enters, Decisions, Code, Match;
    EntersAt(m, b, lo, hi, p, os);
    QuestAt(m.prog, inner, b);
    Step(m, b, lo, hi, p, os);
    q, qs := p[1..], os[1..];
    Undecided(m, p[0], os[0], Decisions(m, q, qs));
    if !os[0] {
      q, qs := Through(m, inner, b + 1, lo, hi, q, qs);
    }
  }

  /** What follows the decision of a split. */
  lemma Undecided(m: Machine, x: Item, later: bool, rest: seq<Choice>)
    ensures var w := Decision(m, x, later) + rest;
      if Splits(m, x) then Due(w, x.pc, x.pos) && w[0].later == later && w[1..] == rest else w == rest
  {
  }

  /** Each visit to the head of a star leaves it or makes a pass through the body. */
  lemma {:induction false} ThroughStar(m: Machine, inner: Ast, b: nat, lo: nat, hi: nat, p: seq<Item>, os: seq<bool>)
      returns (q: seq<Item>, qs: seq<bool>)
    requires WellFormed(inner) && At(m.prog, b, CodeStar(inner, b)) && lo <= b && b + |CodeStar(inner, b)| <= hi
    requires Enters(m, b, lo, hi, p, os)
    ensures Passed(m, b + |CodeStar(inner, b)|, lo, hi, p, q, qs,
                   MatchStar(inner, b, m.subject, SpotOf(p[0]), Decisions(m, p, os)))
    decreases inner, 3, |p|
  {
    hide Enters, Decisions, Code, Match;
    EntersAt(m, b, lo, hi, p, os);
    var c := Code(inner, b + 1);
    SplitAndJumpAt(m.prog, c, b, b);
    Step(m, b, lo, hi, p, os);
    q, qs := p[1..], os[1..];
    Undecided(m, p[0], os[0], Decisions(m, q, qs));
    if !os[0] {
      q, qs := ThroughJump(m, inner, b + 1, b, lo, hi, q, qs);
      q, qs := ThroughStar(m, inner, b, lo, hi, q, qs);
    }
  }

  lemma {:induction false} ThroughPlus(m: Machine, inner: Ast, b: nat, lo: nat, hi: nat, p: seq<Item>, os: seq<bool>)
      returns (q: seq<Item>, qs: seq<bool>)
    requires WellFormed(inner) && At(m.prog, b, Code(inner, b))
    requires var e := b + |Code(inner, b)|; lo <= b && e < hi && e < |m.prog| && m.prog[e] == ISplit(b, e + 1)
    requires Enters(m, b, lo, hi, p, os)
    ensures Passed(m, b + |Code(inner, b)| + 1, lo, hi, p, q, qs,
                   MatchPlus(inner, b, m.subject, SpotOf(p[0]), Decisions(m, p, os)))
    decreases inner, 2, |p|
  {
    hide Enters, Decisions, Code, Match;
    var e := b + |Code(inner, b)|;
    CodeSize(inner, b);
    var p1, os1 := Through(m, inner, b, lo, hi, p, os);
    EntersAt(m, e, lo, hi, p1, os1);
    Step(m, e, lo, hi, p1, os1);
    q, qs := p1[1..], os1[1..];
    Undecided(m, p1[0], os1[0], Decisions(m, q, qs));
    if !os1[0] {
      q, qs := ThroughPlus(m, inner, b, lo, hi, q, qs);
    }
  }

  lemma {:induction false} ThroughCopies(m: Machine, inner: Ast, n: nat, b: nat, lo: nat, hi: nat, p: seq<Item>,
                                         os: seq<bool>)
      returns (q: seq<Item>, qs: seq<bool>)
    requires WellFormed(inner) && At(m.prog, b, CodeCopies(inner, n, b))
    requires lo <= b && b + |CodeCopies(inner, n, b)| <= hi && Enters(m, b, lo, hi, p, os)
    ensures Passed(m, b + |CodeCopies(inner, n, b)|, lo, hi, p, q, qs,
                   MatchCopies(inner, n, b, m.subject, SpotOf(p[0]), Decisions(m, p, os)))
    decreases inner, 3, n
  {
    hide Enters, Decisions, Code, Match;
    if n == 0 {
      q, qs := p, os;
    } else {
      var c := CodeCopies(inner, n - 1, b);
      AtSplit(m.prog, b, c, Code(inner, b + |c|));
      CopiesSize(inner, n - 1, b);
      var p1, os1 := ThroughCopies(m, inner, n - 1, b, lo, hi, p, os);
      q, qs := Through(m, inner, b + |c|, lo, hi, p1, os1);
    }
  }

  lemma {:induction false} ThroughQuests(m: Machine, inner: Ast, n: nat, b: nat, lo: nat, hi: nat, p: seq<Item>,
                                         os: seq<bool>)
      returns (q: seq<Item>, qs: seq<bool>)
    requires WellFormed(inner) && At(m.prog, b, CodeQuests(inner, n, b))
    requires lo <= b && b + |CodeQuests(inner, n, b)| <= hi && Enters(m, b, lo, hi, p, os)
    ensures Passed(m, b + |CodeQuests(inner, n, b)|, lo, hi, p, q, qs,
                   MatchQuests(inner, n, b, m.subject, SpotOf(p[0]), Decisions(m, p, os)))
    decreases inner, 3, n
  {
    hide Enters, Decisions, CodeQuest, MatchQuest;
    if n == 0 {
      q, qs := p, os;
    } else {
      var c := CodeQuests(inner, n - 1, b);
      AtSplit(m.prog, b, c, CodeQuest(inner, b + |c|));
      QuestsSize(inner, n - 1, b);
      var p1, os1 := ThroughQuests(m, inner, n - 1, b, lo, hi, p, os);
      q, qs := ThroughQuest(m, inner, b + |c|, lo, hi, p1, os1);
    }
  }

  lemma {:induction false} ThroughRepeat(m: Machine, inner: Ast, mn: nat, mx: Option<nat>, b: nat, lo: nat, hi: nat,
                                         p: seq<Item>, os: seq<bool>)
      returns (q: seq<Item>, qs: seq<bool>)
    requires WellFormed(inner) && At(m.prog, b, Code(Repeat(inner, mn, mx), b))
    requires lo <= b && b + |Code(Repeat(inner, mn, mx), b)| <= hi && Enters(m, b, lo, hi, p, os)
    ensures Passed(m, b + |Code(Repeat(inner, mn, mx), b)|, lo, hi, p, q, qs,
                   Match(Repeat(inner, mn, mx), b, m.subject, SpotOf(p[0]), Decisions(m, p, os)))
    decreases inner, 4, 0
  {
    hide Enters, Decisions, CodeCopies, CodeStar, CodeQuests, MatchCopies, MatchStar, MatchQuests;
    var copies := CodeCopies(inner, mn, b);
    AtSplit(m.prog, b, copies, CodeRest(inner, mn, mx, b));
    CopiesSize(inner, mn, b);
    var p1, os1 := ThroughCopies(m, inner, mn, b, lo, hi, p, os);
    if mx.None? {
      q, qs := ThroughStar(m, inner, b + |copies|, lo, hi, p1, os1);
    } else {
      q, qs := ThroughQuests(m, inner, Rest(mn, mx.value), b + |copies|, lo, hi, p1, os1);
    }
  }

  /** A run that stands at branch `k` of an alternation takes that branch or a later one. */
  lemma {:induction false} ThroughAlt(m: Machine, branches: seq<Ast>, k: nat, b: nat, lo: nat, hi: nat, p: seq<Item>,
                                      os: seq<bool>)
      returns (q: seq<Item>, qs: seq<bool>)
    requires k < |branches| && WellFormedSeq(branches) && AltPlaced(m.prog, branches, b)
    requires var e := AltEnd(branches, b);
      lo <= b && e <= hi && Enters(m, b + |AltBlocks(branches, k, b, e)|, lo, hi, p, os)
    ensures Passed(m, AltEnd(branches, b), lo, hi, p, q, qs,
                   MatchAlt(branches, k, b, m.subject, SpotOf(p[0]), Decisions(m, p, os)))
    decreases branches, 1, |branches| - k
  {
    hide Enters, Decisions, Decision, Code, Match, AltLast, AltBlocks, AltBlock, WellFormed, SizeBlocks;
    var e := AltEnd(branches, b);
    var sp := b + |AltBlocks(branches, k, b, e)|;
    BlocksSize(branches, k, b, e);
    EntersAt(m, sp, lo, hi, p, os);
    if k == |branches| - 1 {
      q, qs := Through(m, branches[k], sp, lo, hi, p, os);
    } else {
      BlockAt(m.prog, branches, k, b, e);
      Step(m, sp, lo, hi, p, os);
      q, qs := p[1..], os[1..];
      Undecided(m, p[0], os[0], Decisions(m, q, qs));
      if os[0] {
        q, qs := ThroughAlt(m, branches, k + 1, b, lo, hi, q, qs);
      } else {
        q, qs := ThroughJump(m, branches[k], sp + 1, e, lo, hi, q, qs);
      }
    }
  }

  /** As `Through`, followed by the jump that stands behind the code of `a`. */
  lemma {:induction false} ThroughJump(m: Machine, a: Ast, b: nat, t: nat, lo: nat, hi: nat, p: seq<Item>,
      os: seq<bool>)
      returns (q: seq<Item>, qs: seq<bool>)
    requires WellFormed(a) && At(m.prog, b, Code(a, b))
    requires lo <= b && b + |Code(a, b)| < hi <= |m.prog| && m.prog[b + |Code(a, b)|] == IJmp(t)
    requires Enters(m, b, lo, hi, p, os)
    ensures Passed(m, t, lo, hi, p, q, qs, Match(a, b, m.subject, SpotOf(p[0]), Decisions(m, p, os)))
    decreases a, 2, 0
  {
    hide Enters, Decisions, Code, Match;
    q, qs := Through(m, a, b, lo, hi, p, os);
    var jp := b + |Code(a, b)|;
    EntersAt(m, jp, lo, hi, q, qs);
    Step(m, jp, lo, hi, q, qs);
    Undecided(m, q[0], qs[0], Decisions(m, q[1..], qs[1..]));
    q, qs := q[1..], qs[1..];
  }
}
