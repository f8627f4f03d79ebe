/** The ways of an expression against its meaning: every way spans text the expression denotes
    and records spans of its groups, and every span denoted has a way. */
module RegexMeaning {
  import opened Bytes
  import opened RegexSyntax
  import opened RegexWays

  // ----- what a way leaves in the capture slots -----

  ghost predicate SamePair(x: Slots, y: Slots, n: nat)
    requires |x| == |y| && 2 * n + 1 < |x|
  {
    x[2 * n] == y[2 * n] && x[2 * n + 1] == y[2 * n + 1]
  }

  /** Slots 2n and 2n+1 hold a span between `lo` and `hi` that `inner` denotes. */
  ghost predicate Captured(inner: Ast, s: Subject, saves: Slots, n: nat, lo: nat, hi: nat)
    requires 2 * n + 1 < |saves|
  {
    && saves[2 * n].Some? && saves[2 * n + 1].Some?
    && lo <= saves[2 * n].value <= saves[2 * n + 1].value <= hi
    && Denotes(inner, s, saves[2 * n].value, saves[2 * n + 1].value)
  }

  ghost predicate CapOk(a: Ast, s: Subject, x: Spot, y: Spot, n: nat)
    requires |x.saves| == |y.saves| && 2 * n + 1 < |x.saves|
  {
    SamePair(x.saves, y.saves, n) ||
    exists inner :: HasGroup(a, n, inner) && Captured(inner, s, y.saves, n, x.pos, y.pos)
  }

  /** Between `x` and `y` only groups of `a` were recorded, each with a span it denotes. */
  ghost predicate Caps(a: Ast, s: Subject, x: Spot, y: Spot) {
    |x.saves| == |y.saves| && x.pos <= y.pos &&
    forall n: nat :: 2 * n + 1 < |x.saves| ==> CapOk(a, s, x, y, n)
  }

  ghost predicate Effect(a: Ast, s: Subject, x: Spot, y: Spot) {
    Denotes(a, s, x.pos, y.pos) && Caps(a, s, x, y)
  }

  ghost predicate GroupsInclude(a: Ast, part: Ast) {
    forall n, inner :: HasGroup(part, n, inner) ==> HasGroup(a, n, inner)
  }

  lemma CapsWiden(part: Ast, a: Ast, s: Subject, x: Spot, y: Spot)
    requires Caps(part, s, x, y) && GroupsInclude(a, part)
    ensures Caps(a, s, x, y)
  {
    forall n: nat | 2 * n + 1 < |x.saves| ensures CapOk(a, s, x, y, n) {
      assert CapOk(part, s, x, y, n);
    }
  }

  lemma CapsThen(a: Ast, s: Subject, x: Spot, y: Spot, z: Spot)
    requires Caps(a, s, x, y) && Caps(a, s, y, z)
    ensures Caps(a, s, x, z)
  {
    forall n: nat | 2 * n + 1 < |x.saves| ensures CapOk(a, s, x, z, n) {
      assert CapOk(a, s, x, y, n) && CapOk(a, s, y, z, n);
      if !SamePair(y.saves, z.saves, n) {
        var inner :| HasGroup(a, n, inner) && Captured(inner, s, z.saves, n, y.pos, z.pos);
        assert Captured(inner, s, z.saves, n, x.pos, z.pos);
      } else if !SamePair(x.saves, y.saves, n) {
        var inner :| HasGroup(a, n, inner) && Captured(inner, s, y.saves, n, x.pos, y.pos);
        assert Captured(inner, s, z.saves, n, x.pos, z.pos);
      }
    }
  }

  lemma CapsNone(a: Ast, s: Subject, x: Spot, y: Spot)
    requires x.saves == y.saves && x.pos <= y.pos
    ensures Caps(a, s, x, y)
  {
    forall n: nat | 2 * n + 1 < |x.saves| ensures CapOk(a, s, x, y, n) {
      assert SamePair(x.saves, y.saves, n);
    }
  }

  /** A group's number lies in the range its expression was numbered from. */
  lemma {:induction false} GroupRange(a: Ast, g: nat, n: nat, inner: Ast)
    requires Numbered(a, g) && HasGroup(a, n, inner)
    ensures g < n <= g + GroupCount(a)
    decreases a, 0
  {
    match a
    case Concat(items) =>
      var k :| 0 <= k < |items| && HasGroup(items[k], n, inner);
      GroupRangeSeq(items, g, k, n, inner);
    case Alt(branches) =>
      var k :| 0 <= k < |branches| && HasGroup(branches[k], n, inner);
      GroupRangeSeq(branches, g, k, n, inner);
    case Group(m, body) => if !(m == n && body == inner) { GroupRange(body, g + 1, n, inner); }
    case Star(body) => GroupRange(body, g, n, inner);
    case Plus(body) => GroupRange(body, g, n, inner);
    case Quest(body) => GroupRange(body, g, n, inner);
    case Repeat(body, _, _) => GroupRange(body, g, n, inner);
  }

  lemma {:induction false} GroupRangeSeq(items: seq<Ast>, g: nat, k: nat, n: nat, inner: Ast)
    requires NumberedSeq(items, g) && k < |items| && HasGroup(items[k], n, inner)
    ensures g < n <= g + GroupCountSeq(items)
    decreases items, 0
  {
    var last := |items| - 1;
    if k < last {
      GroupRangeSeq(items[..last], g, k, n, inner);
    } else {
      GroupRange(items[last], g + GroupCountSeq(items[..last]), n, inner);
    }
  }

  lemma GroupCaps(n: nat, inner: Ast, g: nat, s: Subject, w: Spot, x: Spot, y: Spot, z: Spot)
    requires n == g + 1 && Numbered(inner, g + 1)
    requires Effect(inner, s, x, y)
    requires x.pos == w.pos && x.saves == Saved(w.saves, 2 * n, w.pos)
    requires z.pos == y.pos && z.saves == Saved(y.saves, 2 * n + 1, y.pos)
    ensures Caps(Group(n, inner), s, w, z)
  {
    forall k: nat | 2 * k + 1 < |w.saves| ensures CapOk(Group(n, inner), s, w, z, k) {
      assert CapOk(inner, s, x, y, k);
      if k == n {
        assert SamePair(x.saves, y.saves, n) by {
          if exists body :: HasGroup(inner, n, body) && Captured(body, s, y.saves, n, x.pos, y.pos) {
            var body :| HasGroup(inner, n, body) && Captured(body, s, y.saves, n, x.pos, y.pos);
            GroupRange(inner, g + 1, n, body);
          }
        }
        assert HasGroup(Group(n, inner), n, inner);
        assert Captured(inner, s, z.saves, n, w.pos, z.pos);
      } else if !SamePair(x.saves, y.saves, k) {
        var body :| HasGroup(inner, k, body) && Captured(body, s, y.saves, k, x.pos, y.pos);
        assert HasGroup(Group(n, inner), k, body) && Captured(body, s, z.saves, k, w.pos, z.pos);
      } else {
        assert SamePair(w.saves, z.saves, k);
      }
    }
  }

  // ----- ways are spans -----

  lemma LoopEffect(inner: Ast, n: nat, s: Subject, x: Spot, y: Spot)
    requires Power(inner, n, s, x.pos, y.pos) && x.pos <= y.pos <= |s.text| && Caps(inner, s, x, y)
    ensures Effect(Star(inner), s, x, y)
    ensures n >= 1 ==> Effect(Plus(inner), s, x, y)
  {
    CapsWiden(inner, Star(inner), s, x, y);
    CapsWiden(inner, Plus(inner), s, x, y);
  }

  lemma QuestEffect(inner: Ast, s: Subject, x: Spot, y: Spot)
    requires x.pos == y.pos || Denotes(inner, s, x.pos, y.pos)
    requires x.pos <= y.pos <= |s.text| && Caps(inner, s, x, y)
    ensures Effect(Quest(inner), s, x, y)
  {
    CapsWiden(inner, Quest(inner), s, x, y);
  }

  lemma RepeatEffect(inner: Ast, mn: nat, mx: Option<nat>, n: nat, s: Subject, x: Spot, y: Spot, z: Spot)
    requires Power(inner, mn + n, s, x.pos, z.pos) && (mx.Some? ==> mn + n <= mx.value)
    requires x.pos <= z.pos <= |s.text|
    requires Caps(inner, s, x, y) && Caps(inner, s, y, z)
    ensures Effect(Repeat(inner, mn, mx), s, x, z)
  {
    CapsThen(inner, s, x, y, z);
    CapsWiden(inner, Repeat(inner, mn, mx), s, x, z);
  }

  lemma SeqEffect(items: seq<Ast>, s: Subject, x: Spot, y: Spot, z: Spot)
    requires items != []
    requires Effect(Concat(items[..|items| - 1]), s, x, y) && Effect(items[|items| - 1], s, y, z)
    ensures Effect(Concat(items), s, x, z)
  {
    var last := |items| - 1;
    forall n, inner | HasGroup(Concat(items[..last]), n, inner) ensures HasGroup(Concat(items), n, inner) {
      var h :| 0 <= h < last && HasGroup(items[..last][h], n, inner);
      assert HasGroup(items[h], n, inner);
    }
    CapsWiden(Concat(items[..last]), Concat(items), s, x, y);
    CapsWiden(items[last], Concat(items), s, y, z);
    CapsThen(Concat(items), s, x, y, z);
    assert DenotesSeq(items[..last], s, x.pos, y.pos) && Denotes(items[last], s, y.pos, z.pos);
  }

  lemma AltTakes(branches: seq<Ast>, k: nat, s: Subject, x: Spot, y: Spot)
    requires k < |branches| && Effect(branches[k], s, x, y)
    ensures Effect(Alt(branches), s, x, y)
  {
    CapsWiden(branches[k], Alt(branches), s, x, y);
  }

  /** A way through `a` spans text that `a` denotes. */
  lemma {:induction false} Sound(a: Ast, at: nat, g: nat, s: Subject, x: Spot, w: seq<Choice>)
    requires WellFormed(a) && Numbered(a, g) && x.pos <= |s.text| && Match(a, at, s, x, w).Went?
    ensures Effect(a, s, x, Match(a, at, s, x, w).spot)
    decreases a, 0, 0
  {
    hide Effect, MatchSeq, MatchAlt, MatchStar, MatchPlus, MatchQuest, MatchCopies, MatchQuests;
    var y := Match(a, at, s, x, w).spot;
    match a {
      case Concat(items) => SoundSeq(items, at, g, s, x, w);
      case Group(n, inner) => SoundGroup(n, inner, at, g, s, x, w);
      case Alt(branches) => SoundAlt(branches, 0, at, g, s, x, w);
      case Star(inner) => var n := SoundStar(inner, at, g, s, x, w); LoopEffect(inner, n, s, x, y);
      case Plus(inner) => var n := SoundPlus(inner, at, g, s, x, w); LoopEffect(inner, n, s, x, y);
      case Quest(inner) => SoundQuest(inner, at, g, s, x, w); QuestEffect(inner, s, x, y);
      case Repeat(inner, mn, mx) => SoundRepeat(inner, mn, mx, at, g, s, x, w);
      case _ => SoundSingle(a, s, x, y);
    }
  }

  /** What one step without decisions does. */
  lemma SoundSingle(a: Ast, s: Subject, x: Spot, y: Spot)
    requires !a.Group? && !a.Concat? && !a.Alt? && !a.Star? && !a.Plus? && !a.Quest? && !a.Repeat?
    requires x.pos <= |s.text| && Match(a, 0, s, x, []) == Went(y, [])
    ensures Effect(a, s, x, y)
  {
    CapsNone(a, s, x, y);
  }

  lemma {:induction false} SoundGroup(n: nat, inner: Ast, at: nat, g: nat, s: Subject, x: Spot, w: seq<Choice>)
    requires WellFormed(inner) && n == g + 1 && Numbered(inner, g + 1) && x.pos <= |s.text|
    requires Match(Group(n, inner), at, s, x, w).Went?
    ensures Effect(Group(n, inner), s, x, Match(Group(n, inner), at, s, x, w).spot)
    decreases inner, 1, 0
  {
    var x' := x.(saves := Saved(x.saves, 2 * n, x.pos));
    Sound(inner, at + 1, g + 1, s, x', w);
    var y := Match(inner, at + 1, s, x', w).spot;
    GroupCaps(n, inner, g, s, x, x', y, Match(Group(n, inner), at, s, x, w).spot);
  }

  lemma {:induction false} SoundSeq(items: seq<Ast>, at: nat, g: nat, s: Subject, x: Spot, w: seq<Choice>)
    requires WellFormedSeq(items) && NumberedSeq(items, g) && x.pos <= |s.text|
    requires MatchSeq(items, at, s, x, w).Went?
    ensures Effect(Concat(items), s, x, MatchSeq(items, at, s, x, w).spot)
    decreases items, 0, 0
  {
    if items == [] {
      CapsNone(Concat(items), s, x, x);
      assert DenotesSeq(items, s, x.pos, x.pos);
    } else {
      var last := |items| - 1;
      var init := items[..last];
      SoundSeq(init, at, g, s, x, w);
      var r := MatchSeq(init, at, s, x, w);
      Sound(items[last], at + SizeSeq(init), g + GroupCountSeq(init), s, r.spot, r.rest);
      SeqEffect(items, s, x, r.spot, MatchSeq(items, at, s, x, w).spot);
    }
  }

  lemma {:induction false} NumberedAt(items: seq<Ast>, g: nat, k: nat)
    requires NumberedSeq(items, g) && k < |items|
    ensures Numbered(items[k], g + GroupCountSeq(items[..k]))
    decreases |items|
  {
    var last := |items| - 1;
    if k < last {
      NumberedAt(items[..last], g, k);
      assert items[..last][..k] == items[..k];
    }
  }

  lemma {:induction false} SoundAlt(branches: seq<Ast>, k: nat, at: nat, g: nat, s: Subject, x: Spot, w: seq<Choice>)
    requires WellFormedSeq(branches) && NumberedSeq(branches, g) && x.pos <= |s.text|
    requires MatchAlt(branches, k, at, s, x, w).Went?
    ensures Effect(Alt(branches), s, x, MatchAlt(branches, k, at, s, x, w).spot)
    decreases branches, 1, |branches| - k
  {
    hide Effect, Match, SizeBlocks, WellFormed, Numbered, NumberedSeq;
    var place, y := at + SizeBlocks(branches, k), MatchAlt(branches, k, at, s, x, w).spot;
    NumberedAt(branches, g, k);
    var gk := g + GroupCountSeq(branches[..k]);
    if k == |branches| - 1 {
      Sound(branches[k], place, gk, s, x, w);
      AltTakes(branches, k, s, x, y);
    } else if w[0].later {
      SoundAlt(branches, k + 1, at, g, s, x, w[1..]);
    } else {
      Sound(branches[k], place + 1, gk, s, x, w[1..]);
      AltTakes(branches, k, s, x, y);
    }
  }

  /** A way through a star makes some number of passes through its body. */
  lemma {:induction false} SoundStar(inner: Ast, at: nat, g: nat, s: Subject, x: Spot, w: seq<Choice>) returns (n: nat)
    requires WellFormed(inner) && Numbered(inner, g) && x.pos <= |s.text|
    requires MatchStar(inner, at, s, x, w).Went?
    ensures var y := MatchStar(inner, at, s, x, w).spot;
      x.pos <= y.pos <= |s.text| && Power(inner, n, s, x.pos, y.pos) && Caps(inner, s, x, y)
    decreases inner, 1, |w|
  {
    hide Match;
    if w[0].later {
      n := 0;
      CapsNone(inner, s, x, x);
    } else {
      Sound(inner, at + 1, g, s, x, w[1..]);
      var r := Match(inner, at + 1, s, x, w[1..]);
      n := SoundStar(inner, at, g, s, r.spot, r.rest);
      n := n + 1;
      CapsThen(inner, s, x, r.spot, MatchStar(inner, at, s, x, w).spot);
    }
  }

  lemma {:induction false} SoundPlus(inner: Ast, at: nat, g: nat, s: Subject, x: Spot, w: seq<Choice>) returns (n: nat)
    requires WellFormed(inner) && Numbered(inner, g) && x.pos <= |s.text|
    requires MatchPlus(inner, at, s, x, w).Went?
    ensures var y := MatchPlus(inner, at, s, x, w).spot;
      n >= 1 && x.pos <= y.pos <= |s.text| && Power(inner, n, s, x.pos, y.pos) && Caps(inner, s, x, y)
    decreases inner, 1, |w|
  {
    hide Match;
    Sound(inner, at, g, s, x, w);
    var r := Match(inner, at, s, x, w);
    if r.rest[0].later {
      n := 1;
      assert Power(inner, 0, s, r.spot.pos, r.spot.pos);
    } else {
      n := SoundPlus(inner, at, g, s, r.spot, r.rest[1..]);
      n := n + 1;
      CapsThen(inner, s, x, r.spot, MatchPlus(inner, at, s, x, w).spot);
    }
  }

  lemma {:induction false} SoundQuest(inner: Ast, at: nat, g: nat, s: Subject, x: Spot, w: seq<Choice>)
    requires WellFormed(inner) && Numbered(inner, g) && x.pos <= |s.text|
    requires MatchQuest(inner, at, s, x, w).Went?
    ensures var y := MatchQuest(inner, at, s, x, w).spot;
      && (x.pos == y.pos || Denotes(inner, s, x.pos, y.pos))
      && x.pos <= y.pos <= |s.text| && Caps(inner, s, x, y)
    decreases inner, 1, 0
  {
    hide Match;
    if w[0].later {
      CapsNone(inner, s, x, x);
    } else {
      Sound(inner, at + 1, g, s, x, w[1..]);
    }
  }

  lemma {:induction false} SoundCopies(inner: Ast, n: nat, at: nat, g: nat, s: Subject, x: Spot, w: seq<Choice>)
    requires WellFormed(inner) && Numbered(inner, g) && x.pos <= |s.text|
    requires MatchCopies(inner, n, at, s, x, w).Went?
    ensures var y := MatchCopies(inner, n, at, s, x, w).spot;
      x.pos <= y.pos <= |s.text| && Power(inner, n, s, x.pos, y.pos) && Caps(inner, s, x, y)
    decreases inner, 1, n
  {
    hide Match;
    if n == 0 {
      CapsNone(inner, s, x, x);
    } else {
      SoundCopies(inner, n - 1, at, g, s, x, w);
      var r := MatchCopies(inner, n - 1, at, s, x, w);
      Sound(inner, at + Room(n - 1, Size(inner)), g, s, r.spot, r.rest);
      var y := MatchCopies(inner, n, at, s, x, w).spot;
      CapsThen(inner, s, x, r.spot, y);
      PowerSnoc(inner, n - 1, s, x.pos, r.spot.pos, y.pos);
    }
  }

  lemma {:induction false} SoundQuests(inner: Ast, n: nat, at: nat, g: nat, s: Subject, x: Spot, w: seq<Choice>)
      returns (k: nat)
    requires WellFormed(inner) && Numbered(inner, g) && x.pos <= |s.text|
    requires MatchQuests(inner, n, at, s, x, w).Went?
    ensures var y := MatchQuests(inner, n, at, s, x, w).spot;
      k <= n && x.pos <= y.pos <= |s.text| && Power(inner, k, s, x.pos, y.pos) && Caps(inner, s, x, y)
    decreases inner, 2, n
  {
    hide MatchQuest;
    if n == 0 {
      k := 0;
      CapsNone(inner, s, x, x);
    } else {
      k := SoundQuests(inner, n - 1, at, g, s, x, w);
      var r := MatchQuests(inner, n - 1, at, s, x, w);
      SoundQuest(inner, at + Room(n - 1, Size(inner) + 1), g, s, r.spot, r.rest);
      var y := MatchQuests(inner, n, at, s, x, w).spot;
      CapsThen(inner, s, x, r.spot, y);
      if r.spot.pos != y.pos {
        PowerSnoc(inner, k, s, x.pos, r.spot.pos, y.pos);
        k := k + 1;
      }
    }
  }

  lemma {:induction false} SoundRepeat(inner: Ast, mn: nat, mx: Option<nat>, at: nat, g: nat, s: Subject, x: Spot,
                                       w: seq<Choice>)
    requires WellFormed(Repeat(inner, mn, mx)) && Numbered(inner, g) && x.pos <= |s.text|
    requires Match(Repeat(inner, mn, mx), at, s, x, w).Went?
    ensures Effect(Repeat(inner, mn, mx), s, x, Match(Repeat(inner, mn, mx), at, s, x, w).spot)
    decreases inner, 3, 0
  {
    hide Effect, Power, MatchCopies, MatchStar, MatchQuests, Caps;
    SoundCopies(inner, mn, at, g, s, x, w);
    var r, at' := MatchCopies(inner, mn, at, s, x, w), at + Room(mn, Size(inner));
    var n := 0;
    if mx.None? {
      n := SoundStar(inner, at', g, s, r.spot, r.rest);
    } else {
      n := SoundQuests(inner, Rest(mn, mx.value), at', g, s, r.spot, r.rest);
    }
    var y := Match(Repeat(inner, mn, mx), at, s, x, w).spot;
    PowerAdd(inner, mn, n, s, x.pos, r.spot.pos, y.pos);
    RepeatEffect(inner, mn, mx, n, s, x, r.spot, y);
  }

  // ----- decisions to come do not matter -----

  function Longer(r: Walk, t: seq<Choice>): Walk {
    if r.Stuck? then Stuck else Went(r.spot, r.rest + t)
  }

  /** The first decision, and those behind it, of a longer list. */
  lemma Ahead(w: seq<Choice>, t: seq<Choice>)
    requires w != []
    ensures w + t != [] && (w + t)[0] == w[0] && (w + t)[1..] == w[1..] + t
  {
  }

  /** What a walk does not use it leaves as it is. */
  lemma {:induction false} Frame(a: Ast, at: nat, s: Subject, x: Spot, w: seq<Choice>, t: seq<Choice>)
    requires Match(a, at, s, x, w).Went?
    ensures Match(a, at, s, x, w + t) == Longer(Match(a, at, s, x, w), t)
    decreases a, 0, 0
  {
    hide MatchSeq, MatchAlt, MatchStar, MatchPlus, MatchQuest, MatchCopies, MatchQuests;
    match a {
      case Concat(items) => FrameSeq(items, at, s, x, w, t);
      case Group(n, inner) => Frame(inner, at + 1, s, x.(saves := Saved(x.saves, 2 * n, x.pos)), w, t);
      case Alt(branches) => FrameAlt(branches, 0, at, s, x, w, t);
      case Star(inner) => FrameStar(inner, at, s, x, w, t);
      case Plus(inner) => FramePlus(inner, at, s, x, w, t);
      case Quest(inner) => FrameQuest(inner, at, s, x, w, t);
      case Repeat(inner, mn, mx) =>
        FrameCopies(inner, mn, at, s, x, w, t);
        var r, at' := MatchCopies(inner, mn, at, s, x, w), at + Room(mn, Size(inner));
        if mx.None? {
          FrameStar(inner, at', s, r.spot, r.rest, t);
        } else {
          FrameQuests(inner, Rest(mn, mx.value), at', s, r.spot, r.rest, t);
        }
      case _ =>
    }
  }

  lemma {:induction false} FrameSeq(items: seq<Ast>, at: nat, s: Subject, x: Spot, w: seq<Choice>, t: seq<Choice>)
    requires MatchSeq(items, at, s, x, w).Went?
    ensures MatchSeq(items, at, s, x, w + t) == Longer(MatchSeq(items, at, s, x, w), t)
    decreases items, 0, 0
  {
    hide Match;
    if items != [] {
      var init, last := items[..|items| - 1], items[|items| - 1];
      FrameSeq(init, at, s, x, w, t);
      var r := MatchSeq(init, at, s, x, w);
      Frame(last, at + SizeSeq(init), s, r.spot, r.rest, t);
    }
  }

  lemma {:induction false} FrameAlt(branches: seq<Ast>, k: nat, at: nat, s: Subject, x: Spot, w: seq<Choice>,
                                    t: seq<Choice>)
    requires MatchAlt(branches, k, at, s, x, w).Went?
    ensures MatchAlt(branches, k, at, s, x, w + t) == Longer(MatchAlt(branches, k, at, s, x, w), t)
    decreases branches, 1, |branches| - k
  {
    hide Match, SizeBlocks;
    var place := at + SizeBlocks(branches, k);
    if k == |branches| - 1 {
      Frame(branches[k], place, s, x, w, t);
    } else {
      Ahead(w, t);
      if w[0].later {
        FrameAlt(branches, k + 1, at, s, x, w[1..], t);
      } else {
        Frame(branches[k], place + 1, s, x, w[1..], t);
      }
    }
  }

  lemma {:induction false} FrameStar(inner: Ast, at: nat, s: Subject, x: Spot, w: seq<Choice>, t: seq<Choice>)
    requires MatchStar(inner, at, s, x, w).Went?
    ensures MatchStar(inner, at, s, x, w + t) == Longer(MatchStar(inner, at, s, x, w), t)
    decreases inner, 1, |w|
  {
    hide Match;
    Ahead(w, t);
    if !w[0].later {
      Frame(inner, at + 1, s, x, w[1..], t);
      var r := Match(inner, at + 1, s, x, w[1..]);
      FrameStar(inner, at, s, r.spot, r.rest, t);
    }
  }

  lemma {:induction false} FramePlus(inner: Ast, at: nat, s: Subject, x: Spot, w: seq<Choice>, t: seq<Choice>)
    requires MatchPlus(inner, at, s, x, w).Went?
    ensures MatchPlus(inner, at, s, x, w + t) == Longer(MatchPlus(inner, at, s, x, w), t)
    decreases inner, 1, |w|
  {
    hide Match;
    Frame(inner, at, s, x, w, t);
    var r := Match(inner, at, s, x, w);
    Ahead(r.rest, t);
    if !r.rest[0].later {
      FramePlus(inner, at, s, r.spot, r.rest[1..], t);
    }
  }

  lemma {:induction false} FrameQuest(inner: Ast, at: nat, s: Subject, x: Spot, w: seq<Choice>, t: seq<Choice>)
    requires MatchQuest(inner, at, s, x, w).Went?
    ensures MatchQuest(inner, at, s, x, w + t) == Longer(MatchQuest(inner, at, s, x, w), t)
    decreases inner, 1, 0
  {
    hide Match;
    Ahead(w, t);
    if !w[0].later {
      Frame(inner, at + 1, s, x, w[1..], t);
    }
  }

  lemma {:induction false} FrameCopies(inner: Ast, n: nat, at: nat, s: Subject, x: Spot, w: seq<Choice>,
                                       t: seq<Choice>)
    requires MatchCopies(inner, n, at, s, x, w).Went?
    ensures MatchCopies(inner, n, at, s, x, w + t) == Longer(MatchCopies(inner, n, at, s, x, w), t)
    decreases inner, 2, n
  {
    hide Match;
    if n > 0 {
      FrameCopies(inner, n - 1, at, s, x, w, t);
      var r := MatchCopies(inner, n - 1, at, s, x, w);
      Frame(inner, at + Room(n - 1, Size(inner)), s, r.spot, r.rest, t);
    }
  }

  lemma {:induction false} FrameQuests(inner: Ast, n: nat, at: nat, s: Subject, x: Spot, w: seq<Choice>,
                                       t: seq<Choice>)
    requires MatchQuests(inner, n, at, s, x, w).Went?
    ensures MatchQuests(inner, n, at, s, x, w + t) == Longer(MatchQuests(inner, n, at, s, x, w), t)
    decreases inner, 2, n
  {
    hide MatchQuest;
    if n > 0 {
      FrameQuests(inner, n - 1, at, s, x, w, t);
      var r := MatchQuests(inner, n - 1, at, s, x, w);
      FrameQuest(inner, at + Room(n - 1, Size(inner) + 1), s, r.spot, r.rest, t);
    }
  }

  // ----- spans have ways -----

  /** The walk ends at text position `j` with every decision used. */
  predicate Finishes(r: Walk, j: nat) {
    r.Went? && r.spot.pos == j && r.rest == []
  }

  /** Every span `a` denotes has a way, whatever the capture slots hold. */
  lemma {:induction false} Complete(a: Ast, at: nat, s: Subject, x: Spot, j: nat) returns (w: seq<Choice>)
    requires WellFormed(a) && Denotes(a, s, x.pos, j)
    ensures Finishes(Match(a, at, s, x, w), j)
    decreases a, 0, 0
  {
    hide MatchSeq, MatchAlt, MatchStar, MatchPlus, MatchQuest, MatchCopies, MatchQuests, Power, DenotesSeq;
    match a {
      case Concat(items) => w := CompleteSeq(items, at, s, x, j);
      case Group(n, inner) => w := Complete(inner, at + 1, s, x.(saves := Saved(x.saves, 2 * n, x.pos)), j);
      case Alt(branches) =>
        var k :| 0 <= k < |branches| && Denotes(branches[k], s, x.pos, j);
        w := CompleteAlt(branches, k, 0, at, s, x, j);
      case Star(inner) =>
        var n: nat :| Power(inner, n, s, x.pos, j);
        w := CompleteStar(inner, n, at, s, x, j);
      case Plus(inner) =>
        var n: nat :| n >= 1 && Power(inner, n, s, x.pos, j);
        w := CompletePlus(inner, n, at, s, x, j);
      case Quest(inner) => w := CompleteQuest(inner, at, s, x, j);
      case Repeat(inner, mn, mx) => w := CompleteRepeat(inner, mn, mx, at, s, x, j);
      case _ => w := [];
    }
  }

  lemma {:induction false} CompleteSeq(items: seq<Ast>, at: nat, s: Subject, x: Spot, j: nat) returns (w: seq<Choice>)
    requires WellFormedSeq(items) && DenotesSeq(items, s, x.pos, j)
    ensures Finishes(MatchSeq(items, at, s, x, w), j)
    decreases items, 0, 0
  {
    hide Match, Denotes;
    if items == [] {
      w := [];
    } else {
      var init, last := items[..|items| - 1], items[|items| - 1];
      var k: nat :| DenotesSeq(init, s, x.pos, k) && Denotes(last, s, k, j);
      var w1 := CompleteSeq(init, at, s, x, k);
      var y := MatchSeq(init, at, s, x, w1).spot;
      var w2 := Complete(last, at + SizeSeq(init), s, y, j);
      FrameSeq(init, at, s, x, w1, w2);
      assert [] + w2 == w2;
      w := w1 + w2;
    }
  }

  /** Decide against the branches before `k` and then for that one. */
  lemma {:induction false} CompleteAlt(branches: seq<Ast>, k: nat, h: nat, at: nat, s: Subject, x: Spot, j: nat)
      returns (w: seq<Choice>)
    requires h <= k < |branches| && WellFormedSeq(branches) && Denotes(branches[k], s, x.pos, j)
    ensures Finishes(MatchAlt(branches, h, at, s, x, w), j)
    decreases branches, 1, k - h
  {
    hide Match, Denotes, SizeBlocks;
    var place := at + SizeBlocks(branches, h);
    if h == |branches| - 1 {
      w := Complete(branches[h], place, s, x, j);
    } else if h < k {
      var w1 := CompleteAlt(branches, k, h + 1, at, s, x, j);
      w := [Choice(place, x.pos, true)] + w1;
      assert w[1..] == w1;
    } else {
      var w1 := Complete(branches[h], place + 1, s, x, j);
      w := [Choice(place, x.pos, false)] + w1;
      assert w[1..] == w1;
    }
  }

  lemma {:induction false} CompleteStar(inner: Ast, n: nat, at: nat, s: Subject, x: Spot, j: nat)
      returns (w: seq<Choice>)
    requires WellFormed(inner) && Power(inner, n, s, x.pos, j)
    ensures Finishes(MatchStar(inner, at, s, x, w), j)
    decreases inner, 1, n
  {
    hide Match, Denotes;
    if n == 0 {
      w := [Choice(at, x.pos, true)];
    } else {
      var k: nat :| Denotes(inner, s, x.pos, k) && Power(inner, n - 1, s, k, j);
      var w1 := Complete(inner, at + 1, s, x, k);
      var y := Match(inner, at + 1, s, x, w1).spot;
      var w2 := CompleteStar(inner, n - 1, at, s, y, j);
      Frame(inner, at + 1, s, x, w1, w2);
      assert [] + w2 == w2;
      w := [Choice(at, x.pos, false)] + (w1 + w2);
      assert w[1..] == w1 + w2;
    }
  }

  lemma {:induction false} CompletePlus(inner: Ast, n: nat, at: nat, s: Subject, x: Spot, j: nat)
      returns (w: seq<Choice>)
    requires WellFormed(inner) && n >= 1 && Power(inner, n, s, x.pos, j)
    ensures Finishes(MatchPlus(inner, at, s, x, w), j)
    decreases inner, 1, n
  {
    hide Match, MatchPlus, Denotes;
    var k: nat :| Denotes(inner, s, x.pos, k) && Power(inner, n - 1, s, k, j);
    var w1 := Complete(inner, at, s, x, k);
    var y := Match(inner, at, s, x, w1).spot;
    if n == 1 {
      w := w1 + ([Choice(at + Size(inner), k, true)] + []);
      PlusPass(inner, at, s, x, w1, true, []);
    } else {
      var w2 := CompletePlus(inner, n - 1, at, s, y, j);
      w := w1 + ([Choice(at + Size(inner), k, false)] + w2);
      PlusPass(inner, at, s, x, w1, false, w2);
    }
  }

  /** A pass through the body of a plus and the decision behind it. */
  lemma PlusPass(inner: Ast, at: nat, s: Subject, x: Spot, w: seq<Choice>, later: bool, t: seq<Choice>)
    requires var r := Match(inner, at, s, x, w); r.Went? && r.rest == []
    ensures var y := Match(inner, at, s, x, w).spot;
      MatchPlus(inner, at, s, x, w + ([Choice(at + Size(inner), y.pos, later)] + t)) ==
      if later then Went(y, t) else MatchPlus(inner, at, s, y, t)
  {
    hide Match;
    var y := Match(inner, at, s, x, w).spot;
    var t' := [Choice(at + Size(inner), y.pos, later)] + t;
    Frame(inner, at, s, x, w, t');
    assert [] + t' == t' && t'[1..] == t;
  }

  lemma {:induction false} CompleteQuest(inner: Ast, at: nat, s: Subject, x: Spot, j: nat) returns (w: seq<Choice>)
    requires WellFormed(inner) && (x.pos == j || Denotes(inner, s, x.pos, j))
    ensures Finishes(MatchQuest(inner, at, s, x, w), j)
    decreases inner, 1, 0
  {
    hide Match, Denotes;
    if x.pos == j {
      w := [Choice(at, x.pos, true)];
    } else {
      var w1 := Complete(inner, at + 1, s, x, j);
      w := [Choice(at, x.pos, false)] + w1;
      assert w[1..] == w1;
    }
  }

  lemma {:induction false} CompleteCopies(inner: Ast, n: nat, at: nat, s: Subject, x: Spot, j: nat)
      returns (w: seq<Choice>)
    requires WellFormed(inner) && Power(inner, n, s, x.pos, j)
    ensures Finishes(MatchCopies(inner, n, at, s, x, w), j)
    decreases inner, 1, n
  {
    hide Match, Denotes;
    if n == 0 {
      w := [];
    } else {
      var k := PowerLast(inner, n, s, x.pos, j);
      var w1 := CompleteCopies(inner, n - 1, at, s, x, k);
      var y := MatchCopies(inner, n - 1, at, s, x, w1).spot;
      var w2 := Complete(inner, at + Room(n - 1, Size(inner)), s, y, j);
      FrameCopies(inner, n - 1, at, s, x, w1, w2);
      assert [] + w2 == w2;
      w := w1 + w2;
    }
  }

  /** `r` passes through `n` optional copies, r <= n. */
  lemma {:induction false} CompleteQuests(inner: Ast, n: nat, r: nat, at: nat, s: Subject, x: Spot, j: nat)
      returns (w: seq<Choice>)
    requires WellFormed(inner) && r <= n && Power(inner, r, s, x.pos, j)
    ensures Finishes(MatchQuests(inner, n, at, s, x, w), j)
    decreases inner, 2, n
  {
    hide MatchQuest, Denotes;
    if n == 0 {
      w := [];
    } else {
      var k, r' := j, r;
      if r == n {
        k := PowerLast(inner, r, s, x.pos, j);
        r' := r - 1;
      }
      var w1 := CompleteQuests(inner, n - 1, r', at, s, x, k);
      var y := MatchQuests(inner, n - 1, at, s, x, w1).spot;
      var w2 := CompleteQuest(inner, at + Room(n - 1, Size(inner) + 1), s, y, j);
      FrameQuests(inner, n - 1, at, s, x, w1, w2);
      assert [] + w2 == w2;
      w := w1 + w2;
    }
  }

  lemma {:induction false} CompleteRepeat(inner: Ast, mn: nat, mx: Option<nat>, at: nat, s: Subject, x: Spot, j: nat)
      returns (w: seq<Choice>)
    requires WellFormed(inner) && Denotes(Repeat(inner, mn, mx), s, x.pos, j)
    ensures Finishes(Match(Repeat(inner, mn, mx), at, s, x, w), j)
    decreases inner, 3, 0
  {
    hide Power, MatchCopies, MatchStar, MatchQuests;
    var n: nat :| mn <= n && (mx.Some? ==> n <= mx.value) && Power(inner, n, s, x.pos, j);
    var k := PowerCut(inner, mn, n - mn, s, x.pos, j);
    var w1 := CompleteCopies(inner, mn, at, s, x, k);
    var y, at' := MatchCopies(inner, mn, at, s, x, w1).spot, at + Room(mn, Size(inner));
    var w2 := [];
    if mx.None? {
      w2 := CompleteStar(inner, n - mn, at', s, y, j);
    } else {
      w2 := CompleteQuests(inner, Rest(mn, mx.value), n - mn, at', s, y, j);
    }
    FrameCopies(inner, mn, at, s, x, w1, w2);
    assert [] + w2 == w2;
    w := w1 + w2;
  }

  /** The last of several copies, split off. */
  lemma {:induction false} PowerLast(a: Ast, n: nat, s: Subject, i: nat, j: nat) returns (k: nat)
    requires n >= 1 && Power(a, n, s, i, j)
    ensures Power(a, n - 1, s, i, k) && Denotes(a, s, k, j)
    decreases n
  {
    var h: nat :| Denotes(a, s, i, h) && Power(a, n - 1, s, h, j);
    if n == 1 {
      k := i;
    } else {
      k := PowerLast(a, n - 1, s, h, j);
    }
  }

  /** The copies after the first `m`, split off. */
  lemma {:induction false} PowerCut(a: Ast, m: nat, n: nat, s: Subject, i: nat, j: nat) returns (k: nat)
    requires Power(a, m + n, s, i, j)
    ensures Power(a, m, s, i, k) && Power(a, n, s, k, j)
    decreases m
  {
    if m == 0 {
      k := i;
    } else {
      var h: nat :| Denotes(a, s, i, h) && Power(a, m + n - 1, s, h, j);
      k := PowerCut(a, m - 1, n, s, h, j);
    }
  }
}
