/** The ways an expression can match, and which of them is preferred.

    A way is the list of decisions taken while matching from left to right: at a `|` the branch
    on its left or the ones on its right, at an operator that repeats one more pass or none.
    `Match` walks through the tree by such a list. Of two ways the preferred one decides for
    the left branch, or for the further pass, where they first differ. */
module RegexWays {
  import opened Bytes
  import opened RegexSyntax

  /** Where matching stands: a text position and what the capture slots hold. */
  datatype Spot = Spot(pos: nat, saves: Slots)

  /** What was decided at a place of the pattern and a position of the text: the left branch or
      one more pass, or else (`later`) the branches on the right or no further pass. */
  datatype Choice = Choice(place: nat, pos: nat, later: bool)

  /** Where a walk has come to, and the decisions it has not used. */
  datatype Walk = Stuck | Went(spot: Spot, rest: seq<Choice>)

  // ----- places -----

  /** Places are numbered from left to right. A leaf, an anchor, a parenthesis and a `?` take
      one number, a star two and a plus one, and every branch but the last of an alternation two
      on top of its own. The copies of an interval are written out. */
  function Size(a: Ast): nat
    decreases a, 0
  {
    match a
    case Empty => 0
    case Concat(items) => SizeSeq(items)
    case Group(_, inner) => Size(inner) + 2
    case Alt(branches) => if branches == [] then 0 else SizeBlocks(branches, |branches| - 1) + SizeLast(branches)
    case Star(inner) => Size(inner) + 2
    case Plus(inner) => Size(inner) + 1
    case Quest(inner) => Size(inner) + 1
    case Repeat(inner, mn, mx) =>
      Room(mn, Size(inner)) + if mx.None? then Size(inner) + 2 else Room(Rest(mn, mx.value), Size(inner) + 1)
    case _ => 1
  }

  function SizeSeq(items: seq<Ast>): nat
    decreases items, 0
  {
    if items == [] then 0 else SizeSeq(items[..|items| - 1]) + Size(items[|items| - 1])
  }

  /** The first `k` branches of an alternation, none of which is the last. */
  function SizeBlocks(branches: seq<Ast>, k: nat): nat
    requires k <= |branches|
    decreases branches, 1, k
  {
    if k == 0 then 0 else SizeBlocks(branches, k - 1) + Size(branches[k - 1]) + 2
  }

  function SizeLast(branches: seq<Ast>): nat
    requires branches != []
    decreases branches, 0
  {
    Size(branches[|branches| - 1])
  }

  function Room(n: nat, size: nat): nat {
    if n == 0 then 0 else Room(n - 1, size) + size
  }

  /** The number of optional copies of an interval. */
  function Rest(mn: nat, mx: nat): nat {
    if mx < mn then 0 else mx - mn
  }

  // ----- walking by decisions -----

  /** The next decision is one for this place and position. */
  predicate Due(w: seq<Choice>, place: nat, pos: nat) {
    w != [] && w[0].place == place && w[0].pos == pos
  }

  /** Reads a byte of the text, if it passes the test. */
  function Eat(x: Spot, w: seq<Choice>, ok: bool): Walk {
    if ok then Went(x.(pos := x.pos + 1), w) else Stuck
  }

  /** Matches `a`, whose places begin at `at`, from `x` on, deciding as `w` says. */
  ghost function Match(a: Ast, at: nat, s: Subject, x: Spot, w: seq<Choice>): (r: Walk)
    ensures r.Went? ==> |r.rest| <= |w|
    decreases a, 0, 0
  {
    match a
    case Empty => Went(x, w)
    case Lit(c) => Eat(x, w, x.pos < |s.text| && LitMatches(c, s.text[x.pos], s.icase))
    case Any => Eat(x, w, x.pos < |s.text|)
    case Class(ms, neg) => Eat(x, w, x.pos < |s.text| && ClassMatches(ms, neg, s.text[x.pos], s.icase))
    case Start => if x.pos == 0 then Went(x, w) else Stuck
    case End => if x.pos == |s.text| then Went(x, w) else Stuck
    case Concat(items) => MatchSeq(items, at, s, x, w)
    case Group(n, inner) =>
      var r := Match(inner, at + 1, s, x.(saves := Saved(x.saves, 2 * n, x.pos)), w);
      if r.Stuck? then Stuck
      else Went(r.spot.(saves := Saved(r.spot.saves, 2 * n + 1, r.spot.pos)), r.rest)
    case Alt(branches) => MatchAlt(branches, 0, at, s, x, w)
    case Star(inner) => MatchStar(inner, at, s, x, w)
    case Plus(inner) => MatchPlus(inner, at, s, x, w)
    case Quest(inner) => MatchQuest(inner, at, s, x, w)
    case Repeat(inner, mn, mx) =>
      var r := MatchCopies(inner, mn, at, s, x, w);
      var at' := at + Room(mn, Size(inner));
      if r.Stuck? then Stuck
      else if mx.None? then MatchStar(inner, at', s, r.spot, r.rest)
      else MatchQuests(inner, Rest(mn, mx.value), at', s, r.spot, r.rest)
  }

  /** Every item in turn. */
  ghost function MatchSeq(items: seq<Ast>, at: nat, s: Subject, x: Spot, w: seq<Choice>): (r: Walk)
    ensures r.Went? ==> |r.rest| <= |w|
    decreases items, 0, 0
  {
    if items == [] then Went(x, w)
    else
      var last := |items| - 1;
      var r := MatchSeq(items[..last], at, s, x, w);
      if r.Stuck? then Stuck else Match(items[last], at + SizeSeq(items[..last]), s, r.spot, r.rest)
  }

  /** Branch `k` or one of those to its right; the last branch leaves nothing to decide. */
  ghost function MatchAlt(branches: seq<Ast>, k: nat, at: nat, s: Subject, x: Spot, w: seq<Choice>): (r: Walk)
    ensures r.Went? ==> |r.rest| <= |w|
    decreases branches, 1, |branches| - k
  {
    if k >= |branches| then Stuck
    else
      var place := at + SizeBlocks(branches, k);
      if k == |branches| - 1 then Match(branches[k], place, s, x, w)
      else if !Due(w, place, x.pos) then Stuck
      else if w[0].later then MatchAlt(branches, k + 1, at, s, x, w[1..])
      else Match(branches[k], place + 1, s, x, w[1..])
  }

  /** Decides for one more pass or none before each pass. */
  ghost function MatchStar(inner: Ast, at: nat, s: Subject, x: Spot, w: seq<Choice>): (r: Walk)
    ensures r.Went? ==> |r.rest| <= |w|
    decreases inner, 1, |w|
  {
    if !Due(w, at, x.pos) then Stuck
    else if w[0].later then Went(x, w[1..])
    else
      var r := Match(inner, at + 1, s, x, w[1..]);
      if r.Stuck? then Stuck else MatchStar(inner, at, s, r.spot, r.rest)
  }

  /** Decides for one more pass or none after each pass. */
  ghost function MatchPlus(inner: Ast, at: nat, s: Subject, x: Spot, w: seq<Choice>): (r: Walk)
    ensures r.Went? ==> |r.rest| <= |w|
    decreases inner, 1, |w|
  {
    var r := Match(inner, at, s, x, w);
    if r.Stuck? || !Due(r.rest, at + Size(inner), r.spot.pos) then Stuck
    else if r.rest[0].later then Went(r.spot, r.rest[1..])
    else MatchPlus(inner, at, s, r.spot, r.rest[1..])
  }

  /** Decides for the one pass or none. */
  ghost function MatchQuest(inner: Ast, at: nat, s: Subject, x: Spot, w: seq<Choice>): (r: Walk)
    ensures r.Went? ==> |r.rest| <= |w|
    decreases inner, 1, 0
  {
    if !Due(w, at, x.pos) then Stuck
    else if w[0].later then Went(x, w[1..])
    else Match(inner, at + 1, s, x, w[1..])
  }

  ghost function MatchCopies(inner: Ast, n: nat, at: nat, s: Subject, x: Spot, w: seq<Choice>): (r: Walk)
    ensures r.Went? ==> |r.rest| <= |w|
    decreases inner, 2, n
  {
    if n == 0 then Went(x, w)
    else
      var r := MatchCopies(inner, n - 1, at, s, x, w);
      if r.Stuck? then Stuck else Match(inner, at + Room(n - 1, Size(inner)), s, r.spot, r.rest)
  }

  ghost function MatchQuests(inner: Ast, n: nat, at: nat, s: Subject, x: Spot, w: seq<Choice>): (r: Walk)
    ensures r.Went? ==> |r.rest| <= |w|
    decreases inner, 2, n
  {
    if n == 0 then Went(x, w)
    else
      var r := MatchQuests(inner, n - 1, at, s, x, w);
      if r.Stuck? then Stuck else MatchQuest(inner, at + Room(n - 1, Size(inner) + 1), s, r.spot, r.rest)
  }

  // ----- preference -----

  /** No decision is taken twice at the same place and position. This is what keeps a loop from
      going round without reading anything. */
  ghost predicate Fresh(w: seq<Choice>) {
    forall i, j :: 0 <= i < j < |w| ==> w[i].place != w[j].place || w[i].pos != w[j].pos
  }

  /** Where the two first differ, `w` decides for what is preferred. */
  ghost predicate Before(w: seq<Choice>, w': seq<Choice>) {
    w != [] && w' != [] && w[0].place == w'[0].place && w[0].pos == w'[0].pos &&
    if w[0].later == w'[0].later then Before(w[1..], w'[1..]) else w'[0].later
  }

  /** Deciding as `w` says, the whole pattern, which is group 0, matches from `q` and leaves `saves`. */
  ghost predicate Way(ast: Ast, s: Subject, q: nat, w: seq<Choice>, saves: Slots) {
    var r := Match(Group(0, ast), 0, s, Spot(q, Blank(|saves|)), w);
    r.Went? && r.spot.saves == saves && r.rest == []
  }

  /** `w` is a way from `q` in which no decision recurs, and is preferred to all others. */
  ghost predicate FirstWay(ast: Ast, s: Subject, q: nat, w: seq<Choice>, saves: Slots) {
    && Way(ast, s, q, w, saves) && Fresh(w)
    && forall w', saves' | |saves'| == |saves| && Way(ast, s, q, w', saves') && Fresh(w') ::
         w == w' || Before(w, w')
  }

  /** What is reported is what the first way from its start leaves in the slots. */
  ghost predicate Preferred(ast: Ast, s: Subject, saves: Slots) {
    saves != [] && saves[0].Some? && exists w :: FirstWay(ast, s, saves[0].value, w, saves)
  }
}
