/** The other half of compiler correctness: every way of an expression is the way of some run
    through its code. */
module RegexComplete {
  import opened Bytes
  import opened RegexSyntax
  import opened RegexWays
  import opened RegexMachine
  import opened RegexCode
  import opened RegexTrace
  import opened RegexCompiler

  /** The walk `r` by the decisions `w` is a run from `x` to address `e`, inside [lo, hi). */
  ghost predicate Carried(m: Machine, lo: nat, hi: nat, x: Item, w: seq<Choice>, e: nat, r: Walk) {
    r.Went? && exists used :: w == used + r.rest && Leads(m, lo, hi, x, used, Arrived(e, r.spot))
  }

  function Arrived(e: nat, y: Spot): Item { Item(e, y.pos, y.saves) }

  lemma CarryNothing(m: Machine, lo: nat, hi: nat, x: Item, w: seq<Choice>)
    requires hi <= |m.prog|
    ensures Carried(m, lo, hi, x, w, x.pc, Went(SpotOf(x), w))
  {
    Stay(m, lo, hi, x);
    assert w == [] + w && Arrived(x.pc, SpotOf(x)) == x;
  }

  /** A step in front. */
  lemma CarryStep(m: Machine, lo: nat, hi: nat, x: Item, later: bool, y: Item, lo': nat, hi': nat, w: seq<Choice>,
                  e: nat, r: Walk)
    requires lo <= x.pc < hi <= |m.prog| && StepTo(m, x, later, y) && lo <= lo' && hi' <= hi
    requires Carried(m, lo', hi', y, w, e, r)
    ensures Carried(m, lo, hi, x, Decision(m, x, later) + w, e, r)
  {
    hide Leads;
    var used :| w == used + r.rest && Leads(m, lo', hi', y, used, Arrived(e, r.spot));
    StepLeads(m, lo, hi, x, later, y, lo', hi', used, Arrived(e, r.spot));
    assert Decision(m, x, later) + w == Decision(m, x, later) + used + r.rest;
  }

  /** One walk after the other. */
  lemma CarryThen(m: Machine, lo: nat, hi: nat, x: Item, w: seq<Choice>, lo1: nat, hi1: nat, e1: nat, r1: Walk,
                  lo2: nat, hi2: nat, e2: nat, r2: Walk)
    requires Carried(m, lo1, hi1, x, w, e1, r1) && Carried(m, lo2, hi2, Arrived(e1, r1.spot), r1.rest, e2, r2)
    requires lo <= lo1 && hi1 <= hi <= |m.prog| && lo <= lo2 && hi2 <= hi
    ensures Carried(m, lo, hi, x, w, e2, r2)
  {
    hide Leads;
    var y, z := Arrived(e1, r1.spot), Arrived(e2, r2.spot);
    var used1 :| w == used1 + r1.rest && Leads(m, lo1, hi1, x, used1, y);
    var used2 :| r1.rest == used2 + r2.rest && Leads(m, lo2, hi2, y, used2, z);
    WidenLeads(m, lo, hi, lo1, hi1, x, used1, y);
    JoinLeads(m, lo, hi, x, used1, y, lo2, hi2, used2, z);
    assert w == used1 + used2 + r2.rest;
  }

  /** The decision at a split is the next one due. */
  lemma Decided(m: Machine, x: Item, w: seq<Choice>)
    requires Splits(m, x) && Due(w, x.pc, x.pos)
    ensures w == Decision(m, x, w[0].later) + w[1..]
  {
  }

  lemma {:induction false} Complete(m: Machine, a: Ast, b: nat, x: Item, w: seq<Choice>)
    requires WellFormed(a) && At(m.prog, b, Code(a, b)) && x.pc == b
    requires Match(a, b, m.subject, SpotOf(x), w).Went?
    ensures var e := b + |Code(a, b)|; Carried(m, b, e, x, w, e, Match(a, b, m.subject, SpotOf(x), w))
    decreases a, 1, 0
  {
    hide Carried, CodeSeq, CodeStar, CodeQuest, CodeCopies, CodeRest, AltBlocks, AltBlock, AltLast;
    hide MatchSeq, MatchAlt, MatchStar, MatchPlus, MatchQuest, MatchCopies, MatchQuests;
    match a {
      case Empty => CarryNothing(m, b, b, x, w);
      case Concat(items) => CompleteSeq(m, items, b, x, w);
      case Group(n, inner) =>
        GroupAt(m.prog, n, Code(inner, b + 1), b);
        CompleteGroup(m, n, inner, b, x, w);
      case Alt(branches) =>
        AltAt(m.prog, branches, b);
        CompleteAlt(m, branches, 0, b, x, w);
      case Star(_) => CompleteLoop(m, a, b, x, w);
      case Plus(_) => CompleteLoop(m, a, b, x, w);
      case Quest(_) => CompleteLoop(m, a, b, x, w);
      case Repeat(_, _, _) => CompleteLoop(m, a, b, x, w);
      case _ => CompleteSingle(m, a, b, x, w);
    }
  }

  lemma {:induction false} CompleteLoop(m: Machine, a: Ast, b: nat, x: Item, w: seq<Choice>)
    requires a.Star? || a.Plus? || a.Quest? || a.Repeat?
    requires WellFormed(a) && At(m.prog, b, Code(a, b)) && x.pc == b
    requires Match(a, b, m.subject, SpotOf(x), w).Went?
    ensures var e := b + |Code(a, b)|; Carried(m, b, e, x, w, e, Match(a, b, m.subject, SpotOf(x), w))
    decreases a, 0, 0
  {
    hide Carried, CodeSeq, CodeStar, CodeQuest, CodeCopies, CodeRest, AltBlocks, AltBlock, AltLast;
    hide MatchSeq, MatchAlt, MatchStar, MatchPlus, MatchQuest, MatchCopies, MatchQuests;
    var c := Code(a, b);
    match a {
      case Star(inner) =>
        assert c == CodeStar(inner, b);
        CompleteStar(m, inner, b, x, w);
      case Plus(inner) =>
        assert c == Code(inner, b) + [ISplit(b, b + |Code(inner, b)| + 1)];
        PlusAt(m.prog, Code(inner, b), b);
        CompletePlus(m, inner, b, x, w);
      case Quest(inner) =>
        assert c == CodeQuest(inner, b);
        CompleteQuest(m, inner, b, x, w);
      case Repeat(inner, mn, mx) => CompleteRepeat(m, inner, mn, mx, b, x, w);
    }
  }

  lemma CompleteSingle(m: Machine, a: Ast, b: nat, x: Item, w: seq<Choice>)
    requires Single(a) && At(m.prog, b, Code(a, b)) && x.pc == b
    requires Match(a, b, m.subject, SpotOf(x), w).Went?
    ensures |Code(a, b)| == 1 && Carried(m, b, b + 1, x, w, b + 1, Match(a, b, m.subject, SpotOf(x), w))
  {
    hide Carried;
    AtIndex(m.prog, b, Code(a, b), 0);
    var y := Arrived(b + 1, Match(a, b, m.subject, SpotOf(x), w).spot);
    assert StepTo(m, x, false, y);
    CarryNothing(m, b, b + 1, y, w);
    CarryStep(m, b, b + 1, x, false, y, b, b + 1, w, b + 1, Went(SpotOf(y), w));
    assert [] + w == w;
  }

  lemma {:induction false} CompleteSeq(m: Machine, items: seq<Ast>, b: nat, x: Item, w: seq<Choice>)
    requires WellFormedSeq(items) && At(m.prog, b, CodeSeq(items, b)) && x.pc == b
    requires MatchSeq(items, b, m.subject, SpotOf(x), w).Went?
    ensures var e := b + |CodeSeq(items, b)|; Carried(m, b, e, x, w, e, MatchSeq(items, b, m.subject, SpotOf(x), w))
    decreases items, 0, 0
  {
    hide Carried, Code, Match;
    var s := m.subject;
    if items == [] {
      CarryNothing(m, b, b, x, w);
    } else {
      var init, last := items[..|items| - 1], items[|items| - 1];
      var c := CodeSeq(init, b);
      var e1, e := b + |c|, b + |CodeSeq(items, b)|;
      AtSplit(m.prog, b, c, Code(last, e1));
      SeqSize(init, b);
      CompleteSeq(m, init, b, x, w);
      var r := MatchSeq(init, b, s, SpotOf(x), w);
      Complete(m, last, e1, Arrived(e1, r.spot), r.rest);
      CarryThen(m, b, e, x, w, b, e1, e1, r, e1, e, e, MatchSeq(items, b, s, SpotOf(x), w));
    }
  }

  lemma {:induction false} CompleteGroup(m: Machine, n: nat, inner: Ast, b: nat, x: Item, w: seq<Choice>)
    requires WellFormed(inner) && At(m.prog, b + 1, Code(inner, b + 1)) && x.pc == b
    requires var e := b + |Code(inner, b + 1)| + 2;
      e <= |m.prog| && m.prog[b] == ISave(2 * n) && m.prog[e - 1] == ISave(2 * n + 1)
    requires Match(Group(n, inner), b, m.subject, SpotOf(x), w).Went?
    ensures var e := b + |Code(inner, b + 1)| + 2;
      Carried(m, b, e, x, w, e, Match(Group(n, inner), b, m.subject, SpotOf(x), w))
    decreases inner, 4, 0
  {
    hide Carried, Code;
    var e := b + |Code(inner, b + 1)| + 2;
    var y := Item(b + 1, x.pos, Saved(x.saves, 2 * n, x.pos));
    Complete(m, inner, b + 1, y, w);
    var r := Match(inner, b + 1, m.subject, SpotOf(y), w);
    var z := Arrived(e - 1, r.spot);
    var z' := Item(e, z.pos, Saved(z.saves, 2 * n + 1, z.pos));
    assert StepTo(m, x, false, y) && StepTo(m, z, false, z');
    CarryNothing(m, b, e, z', r.rest);
    CarryStep(m, b, e, z, false, z', b, e, r.rest, e, Went(SpotOf(z'), r.rest));
    assert [] + r.rest == r.rest && [] + w == w;
    CarryThen(m, b, e, y, w, b + 1, e - 1, e - 1, r, b, e, e, Went(SpotOf(z'), r.rest));
    CarryStep(m, b, e, x, false, y, b, e, w, e, Went(SpotOf(z'), r.rest));
  }

  lemma {:induction false} CompleteQuest(m: Machine, inner: Ast, b: nat, x: Item, w: seq<Choice>)
    requires WellFormed(inner) && At(m.prog, b, CodeQuest(inner, b)) && x.pc == b
    requires MatchQuest(inner, b, m.subject, SpotOf(x), w).Went?
    ensures var e := b + |CodeQuest(inner, b)|; Carried(m, b, e, x, w, e, MatchQuest(inner, b, m.subject, SpotOf(x), w))
    decreases inner, 2, 0
  {
    hide Carried, Code, Match;
    QuestAt(m.prog, inner, b);
    var e := b + |CodeQuest(inner, b)|;
    Decided(m, x, w);
    var y := x.(pc := if w[0].later then e else b + 1);
    assert StepTo(m, x, w[0].later, y);
    if w[0].later {
      CarryNothing(m, b + 1, e, y, w[1..]);
    } else {
      Complete(m, inner, b + 1, y, w[1..]);
    }
    CarryStep(m, b, e, x, w[0].later, y, b + 1, e, w[1..], e, MatchQuest(inner, b, m.subject, SpotOf(x), w));
  }

  lemma {:induction false} CompleteStar(m: Machine, inner: Ast, b: nat, x: Item, w: seq<Choice>)
    requires WellFormed(inner) && At(m.prog, b, CodeStar(inner, b)) && x.pc == b
    requires MatchStar(inner, b, m.subject, SpotOf(x), w).Went?
    ensures var e := b + |CodeStar(inner, b)|; Carried(m, b, e, x, w, e, MatchStar(inner, b, m.subject, SpotOf(x), w))
    decreases inner, 2, |w|
  {
    hide Carried, Code, Match;
    var c := Code(inner, b + 1);
    SplitAndJumpAt(m.prog, c, b, b);
    var e, all := b + |c| + 2, MatchStar(inner, b, m.subject, SpotOf(x), w);
    Decided(m, x, w);
    var y := x.(pc := if w[0].later then e else b + 1);
    assert StepTo(m, x, w[0].later, y);
    if w[0].later {
      CarryNothing(m, b, e, y, w[1..]);
    } else {
      Complete(m, inner, b + 1, y, w[1..]);
      var r := Match(inner, b + 1, m.subject, SpotOf(y), w[1..]);
      CompleteStar(m, inner, b, Arrived(b, r.spot), r.rest);
      CarryBack(m, b, e, y, w[1..], b + 1, e - 1, r, b, all);
    }
    CarryStep(m, b, e, x, w[0].later, y, b, e, w[1..], e, all);
  }

  /** A walk, the jump behind it, and another walk. */
  lemma CarryBack(m: Machine, lo: nat, hi: nat, x: Item, w: seq<Choice>, lo': nat, jp: nat, r: Walk, t: nat, r2: Walk)
    requires r.Went? && Carried(m, lo', jp, x, w, jp, r) && lo <= lo'
    requires lo <= jp < hi <= |m.prog| && m.prog[jp] == IJmp(t)
    requires Carried(m, lo, hi, Arrived(t, r.spot), r.rest, hi, r2)
    ensures Carried(m, lo, hi, x, w, hi, r2)
  {
    hide Carried;
    var z, z' := Arrived(jp, r.spot), Arrived(t, r.spot);
    assert StepTo(m, z, false, z') && [] + r.rest == r.rest;
    CarryStep(m, lo, hi, z, false, z', lo, hi, r.rest, hi, r2);
    CarryThen(m, lo, hi, x, w, lo', jp, jp, r, lo, hi, hi, r2);
  }

  lemma {:induction false} CompletePlus(m: Machine, inner: Ast, b: nat, x: Item, w: seq<Choice>)
    requires WellFormed(inner) && At(m.prog, b, Code(inner, b)) && x.pc == b
    requires var e := b + |Code(inner, b)|; e < |m.prog| && m.prog[e] == ISplit(b, e + 1)
    requires MatchPlus(inner, b, m.subject, SpotOf(x), w).Went?
    ensures var e := b + |Code(inner, b)| + 1;
      Carried(m, b, e, x, w, e, MatchPlus(inner, b, m.subject, SpotOf(x), w))
    decreases inner, 2, |w|
  {
    hide Carried, Code, Match;
    var e, all := b + |Code(inner, b)| + 1, MatchPlus(inner, b, m.subject, SpotOf(x), w);
    CodeSize(inner, b);
    Complete(m, inner, b, x, w);
    var r := Match(inner, b, m.subject, SpotOf(x), w);
    var z := Arrived(e - 1, r.spot);
    Decided(m, z, r.rest);
    var z' := z.(pc := if r.rest[0].later then e else b);
    assert StepTo(m, z, r.rest[0].later, z');
    if r.rest[0].later {
      CarryNothing(m, b, e, z', r.rest[1..]);
    } else {
      CompletePlus(m, inner, b, z', r.rest[1..]);
    }
    CarryStep(m, b, e, z, r.rest[0].later, z', b, e, r.rest[1..], e, all);
    CarryThen(m, b, e, x, w, b, e - 1, e - 1, r, b, e, e, all);
  }

  lemma {:induction false} CompleteCopies(m: Machine, inner: Ast, n: nat, b: nat, x: Item, w: seq<Choice>)
    requires WellFormed(inner) && At(m.prog, b, CodeCopies(inner, n, b)) && x.pc == b
    requires MatchCopies(inner, n, b, m.subject, SpotOf(x), w).Went?
    ensures var e := b + |CodeCopies(inner, n, b)|;
      Carried(m, b, e, x, w, e, MatchCopies(inner, n, b, m.subject, SpotOf(x), w))
    decreases inner, 3, n
  {
    hide Carried, Code, Match;
    if n == 0 {
      CarryNothing(m, b, b, x, w);
    } else {
      var c := CodeCopies(inner, n - 1, b);
      var e1, e := b + |c|, b + |CodeCopies(inner, n, b)|;
      AtSplit(m.prog, b, c, Code(inner, e1));
      CopiesSize(inner, n - 1, b);
      CompleteCopies(m, inner, n - 1, b, x, w);
      var r := MatchCopies(inner, n - 1, b, m.subject, SpotOf(x), w);
      Complete(m, inner, e1, Arrived(e1, r.spot), r.rest);
      CarryThen(m, b, e, x, w, b, e1, e1, r, e1, e, e, MatchCopies(inner, n, b, m.subject, SpotOf(x), w));
    }
  }

  lemma {:induction false} CompleteQuests(m: Machine, inner: Ast, n: nat, b: nat, x: Item, w: seq<Choice>)
    requires WellFormed(inner) && At(m.prog, b, CodeQuests(inner, n, b)) && x.pc == b
    requires MatchQuests(inner, n, b, m.subject, SpotOf(x), w).Went?
    ensures var e := b + |CodeQuests(inner, n, b)|;
      Carried(m, b, e, x, w, e, MatchQuests(inner, n, b, m.subject, SpotOf(x), w))
    decreases inner, 3, n
  {
    hide Carried, CodeQuest, MatchQuest;
    if n == 0 {
      CarryNothing(m, b, b, x, w);
    } else {
      var c := CodeQuests(inner, n - 1, b);
      var e1, e := b + |c|, b + |CodeQuests(inner, n, b)|;
      AtSplit(m.prog, b, c, CodeQuest(inner, e1));
      QuestsSize(inner, n - 1, b);
      CompleteQuests(m, inner, n - 1, b, x, w);
      var r := MatchQuests(inner, n - 1, b, m.subject, SpotOf(x), w);
      CompleteQuest(m, inner, e1, Arrived(e1, r.spot), r.rest);
      CarryThen(m, b, e, x, w, b, e1, e1, r, e1, e, e, MatchQuests(inner, n, b, m.subject, SpotOf(x), w));
    }
  }

  lemma {:induction false} CompleteRepeat(m: Machine, inner: Ast, mn: nat, mx: Option<nat>, b: nat, x: Item,
                                          w: seq<Choice>)
    requires WellFormed(inner) && At(m.prog, b, Code(Repeat(inner, mn, mx), b)) && x.pc == b
    requires Match(Repeat(inner, mn, mx), b, m.subject, SpotOf(x), w).Went?
    ensures var e := b + |Code(Repeat(inner, mn, mx), b)|;
      Carried(m, b, e, x, w, e, Match(Repeat(inner, mn, mx), b, m.subject, SpotOf(x), w))
    decreases inner, 4, 0
  {
    hide Carried, CodeCopies, CodeStar, CodeQuests, MatchCopies, MatchStar, MatchQuests;
    var copies := CodeCopies(inner, mn, b);
    AtSplit(m.prog, b, copies, CodeRest(inner, mn, mx, b));
    var e1, e := b + |copies|, b + |Code(Repeat(inner, mn, mx), b)|;
    CopiesSize(inner, mn, b);
    CompleteCopies(m, inner, mn, b, x, w);
    var r := MatchCopies(inner, mn, b, m.subject, SpotOf(x), w);
    if mx.None? {
      CompleteStar(m, inner, e1, Arrived(e1, r.spot), r.rest);
    } else {
      CompleteQuests(m, inner, Rest(mn, mx.value), e1, Arrived(e1, r.spot), r.rest);
    }
    CarryThen(m, b, e, x, w, b, e1, e1, r, e1, e, e, Match(Repeat(inner, mn, mx), b, m.subject, SpotOf(x), w));
  }

  /** From branch `k` of an alternation to its end. */
  lemma {:induction false} CompleteAlt(m: Machine, branches: seq<Ast>, k: nat, b: nat, x: Item, w: seq<Choice>)
    requires k < |branches| && WellFormedSeq(branches) && AltPlaced(m.prog, branches, b)
    requires x.pc == b + |AltBlocks(branches, k, b, AltEnd(branches, b))|
    requires MatchAlt(branches, k, b, m.subject, SpotOf(x), w).Went?
    ensures var e := AltEnd(branches, b);
      Carried(m, b, e, x, w, e, MatchAlt(branches, k, b, m.subject, SpotOf(x), w))
    decreases branches, 1, |branches| - k
  {
    hide Carried, Decision, Code, Match, AltLast, AltBlocks, AltBlock, WellFormed, SizeBlocks;
    var e, sp, all := AltEnd(branches, b), x.pc, MatchAlt(branches, k, b, m.subject, SpotOf(x), w);
    BlocksSize(branches, k, b, e);
    if k == |branches| - 1 {
      Complete(m, branches[k], sp, x, w);
      CarryWiden(m, b, e, sp, e, x, w, e, all);
    } else {
      BlockAt(m.prog, branches, k, b, e);
      Decided(m, x, w);
      var c := Code(branches[k], sp + 1);
      var y := x.(pc := if w[0].later then sp + |c| + 2 else sp + 1);
      assert StepTo(m, x, w[0].later, y);
      if w[0].later {
        CompleteAlt(m, branches, k + 1, b, y, w[1..]);
      } else {
        Complete(m, branches[k], sp + 1, y, w[1..]);
        Leave(m, b, e, y, w[1..], sp + 1, sp + 1 + |c|, all);
      }
      CarryStep(m, b, e, x, w[0].later, y, b, e, w[1..], e, all);
    }
  }

  lemma CarryWiden(m: Machine, lo: nat, hi: nat, lo': nat, hi': nat, x: Item, w: seq<Choice>, e: nat, r: Walk)
    requires Carried(m, lo', hi', x, w, e, r) && lo <= lo' && hi' <= hi <= |m.prog|
    ensures Carried(m, lo, hi, x, w, e, r)
  {
    var used :| w == used + r.rest && Leads(m, lo', hi', x, used, Arrived(e, r.spot));
    WidenLeads(m, lo, hi, lo', hi', x, used, Arrived(e, r.spot));
  }

  /** The jump behind a branch. */
  lemma Leave(m: Machine, lo: nat, hi: nat, x: Item, w: seq<Choice>, lo': nat, jp: nat, r: Walk)
    requires Carried(m, lo', jp, x, w, jp, r) && lo <= lo' && lo <= jp < hi <= |m.prog| && m.prog[jp] == IJmp(hi)
    ensures Carried(m, lo, hi, x, w, hi, r)
  {
    hide Carried;
    assert r.Went? by { CarriedWent(m, lo', jp, x, w, jp, r); }
    CarryNothing(m, lo, hi, Arrived(hi, r.spot), r.rest);
    CarryBack(m, lo, hi, x, w, lo', jp, r, hi, r);
  }

  lemma CarriedWent(m: Machine, lo: nat, hi: nat, x: Item, w: seq<Choice>, e: nat, r: Walk)
    requires Carried(m, lo, hi, x, w, e, r)
    ensures r.Went?
  {
  }
}
