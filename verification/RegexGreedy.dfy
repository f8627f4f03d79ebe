/** Repetition is greedy: when what is repeated is a single byte test, the first way of a star, a
    plus, a `?` or an interval reads as much as the expression can match. */
module RegexGreedy {
  import opened Bytes
  import opened RegexSyntax
  import opened RegexWays

  predicate OneByte(a: Ast) {
    a.Lit? || a.Any? || a.Class?
  }

  /** A repetition of a single byte test. */
  predicate Repetition(a: Ast) {
    (a.Star? || a.Plus? || a.Quest? || a.Repeat?) && OneByte(a.inner)
  }

  /** The byte at `k` passes the test. */
  ghost predicate Passes(inner: Ast, s: Subject, k: nat) {
    Denotes(inner, s, k, k + 1)
  }

  /** The bytes from `i` up to `j` pass it. */
  ghost predicate Fit(inner: Ast, s: Subject, i: nat, j: nat) {
    i <= j && forall k: nat :: i <= k < j ==> Passes(inner, s, k)
  }

  lemma OneStep(inner: Ast, at: nat, s: Subject, x: Spot, w: seq<Choice>)
    requires OneByte(inner)
    ensures Size(inner) == 1
    ensures Match(inner, at, s, x, w) ==
            if Passes(inner, s, x.pos) then Went(x.(pos := x.pos + 1), w) else Stuck
  {
  }

  lemma {:induction false} PowerFits(inner: Ast, n: nat, s: Subject, i: nat, j: nat)
    requires OneByte(inner) && Power(inner, n, s, i, j)
    ensures j == i + n && Fit(inner, s, i, j)
    decreases n
  {
    if n > 0 {
      var k: nat :| Denotes(inner, s, i, k) && Power(inner, n - 1, s, k, j);
      PowerFits(inner, n - 1, s, k, j);
    }
  }

  // ----- the order of ways -----

  lemma {:induction false} BeforeOnce(w: seq<Choice>, w': seq<Choice>)
    requires Before(w, w')
    ensures w != w' && !Before(w', w)
    decreases |w|
  {
    if w[0].later == w'[0].later {
      BeforeOnce(w[1..], w'[1..]);
    }
  }

  lemma {:induction false} BeforeAppend(w: seq<Choice>, w': seq<Choice>, t: seq<Choice>, t': seq<Choice>)
    requires Before(w, w')
    ensures Before(w + t, w' + t')
    decreases |w|
  {
    if w[0].later == w'[0].later {
      BeforeAppend(w[1..], w'[1..], t, t');
      assert (w + t)[1..] == w[1..] + t && (w' + t')[1..] == w'[1..] + t';
    }
  }

  lemma {:induction false} BeforeBehind(u: seq<Choice>, w: seq<Choice>, w': seq<Choice>)
    requires Before(w, w')
    ensures Before(u + w, u + w')
    decreases |u|
  {
    if u == [] {
      assert u + w == w && u + w' == w';
    } else {
      BeforeBehind(u[1..], w, w');
      assert (u + w)[1..] == u[1..] + w && (u + w')[1..] == u[1..] + w';
    }
  }

  // ----- stars -----

  /** One more pass at each position up to `j`, and there no further one. */
  function StarWay(at: nat, i: nat, j: nat): seq<Choice>
    decreases j - i
  {
    if i >= j then [Choice(at, i, true)] else [Choice(at, i, false)] + StarWay(at, i + 1, j)
  }

  lemma {:induction false} StarWayFresh(at: nat, i: nat, j: nat)
    ensures forall k :: 0 <= k < |StarWay(at, i, j)| ==> StarWay(at, i, j)[k].pos == i + k
    decreases j - i
  {
    if i < j {
      StarWayFresh(at, i + 1, j);
    }
  }

  lemma {:induction false} StarWayGoes(inner: Ast, at: nat, s: Subject, x: Spot, j: nat)
    requires OneByte(inner) && Fit(inner, s, x.pos, j)
    ensures MatchStar(inner, at, s, x, StarWay(at, x.pos, j)) == Went(x.(pos := j), [])
    decreases j - x.pos
  {
    hide Match;
    var w := StarWay(at, x.pos, j);
    if x.pos < j {
      OneStep(inner, at + 1, s, x, w[1..]);
      StarWayGoes(inner, at, s, x.(pos := x.pos + 1), j);
      assert w[1..] == StarWay(at, x.pos + 1, j);
    }
  }

  /** A way through a star that stops short decides later where it stops. */
  lemma {:induction false} StarAhead(inner: Ast, at: nat, s: Subject, x: Spot, w: seq<Choice>, j: nat)
    requires OneByte(inner) && MatchStar(inner, at, s, x, w).Went? && MatchStar(inner, at, s, x, w).spot.pos < j
    ensures Before(StarWay(at, x.pos, j), w)
    decreases |w|
  {
    hide Match;
    OneStep(inner, at + 1, s, x, w[1..]);
    if w[0].later {
    } else {
      StarRises(inner, at, s, x.(pos := x.pos + 1), w[1..]);
      StarAhead(inner, at, s, x.(pos := x.pos + 1), w[1..], j);
      assert StarWay(at, x.pos, j)[1..] == StarWay(at, x.pos + 1, j);
    }
  }

  lemma {:induction false} StarRises(inner: Ast, at: nat, s: Subject, x: Spot, w: seq<Choice>)
    requires OneByte(inner) && MatchStar(inner, at, s, x, w).Went?
    ensures MatchStar(inner, at, s, x, w).spot.pos >= x.pos
    decreases |w|
  {
    hide Match;
    OneStep(inner, at + 1, s, x, w[1..]);
    if !w[0].later {
      StarRises(inner, at, s, x.(pos := x.pos + 1), w[1..]);
    }
  }

  /** After its first pass a plus is a star without the place in front. */
  lemma {:induction false} PlusIsStar(inner: Ast, at: nat, s: Subject, x: Spot, w: seq<Choice>)
    requires OneByte(inner)
    ensures MatchPlus(inner, at, s, x, w) ==
            if Passes(inner, s, x.pos) then MatchStar(inner, at + 1, s, x.(pos := x.pos + 1), w) else Stuck
    decreases |w|
  {
    hide Match;
    OneStep(inner, at, s, x, w);
    if w != [] {
      OneStep(inner, at + 2, s, x.(pos := x.pos + 1), w[1..]);
      PlusIsStar(inner, at, s, x.(pos := x.pos + 1), w[1..]);
    }
  }

  // ----- optional copies -----

  function Least(a: nat, b: nat): nat {
    if a < b then a else b
  }

  /** `n` optional copies, of which the first `k` are taken. */
  function QuestsWay(n: nat, at: nat, i: nat, k: nat): seq<Choice> {
    if n == 0 then []
    else QuestsWay(n - 1, at, i, k) + [Choice(at + Room(n - 1, 2), i + Least(k, n - 1), k < n)]
  }

  lemma {:induction false} RoomRises(m: nat, n: nat)
    requires m < n
    ensures Room(m, 2) < Room(n, 2)
    decreases n
  {
    if m < n - 1 {
      RoomRises(m, n - 1);
    }
  }

  lemma {:induction false} QuestsWayFresh(n: nat, at: nat, i: nat, k: nat)
    ensures |QuestsWay(n, at, i, k)| == n
    ensures forall h :: 0 <= h < n ==> QuestsWay(n, at, i, k)[h].place == at + Room(h, 2)
    ensures Fresh(QuestsWay(n, at, i, k))
  {
    if n > 0 {
      QuestsWayFresh(n - 1, at, i, k);
    }
    forall h, h' | 0 <= h < h' < n ensures Room(h, 2) < Room(h', 2) {
      RoomRises(h, h');
    }
  }

  lemma OneQuest(inner: Ast, at: nat, s: Subject, x: Spot, c: Choice, t: seq<Choice>)
    requires OneByte(inner) && c.place == at && c.pos == x.pos && (c.later || Passes(inner, s, x.pos))
    ensures MatchQuest(inner, at, s, x, [c] + t) == Went(if c.later then x else x.(pos := x.pos + 1), t)
  {
    assert ([c] + t)[1..] == t;
    OneStep(inner, at + 1, s, x, t);
  }

  lemma {:induction false} QuestsWayGoes(inner: Ast, n: nat, at: nat, s: Subject, x: Spot, k: nat, t: seq<Choice>)
    requires OneByte(inner) && Fit(inner, s, x.pos, x.pos + Least(k, n))
    ensures MatchQuests(inner, n, at, s, x, QuestsWay(n, at, x.pos, k) + t) == Went(x.(pos := x.pos + Least(k, n)), t)
    decreases n
  {
    hide MatchQuest, Passes, Room;
    if n == 0 {
      assert [] + t == t;
    } else {
      var c, y := Choice(at + Room(n - 1, 2), x.pos + Least(k, n - 1), k < n), x.(pos := x.pos + Least(k, n - 1));
      QuestsWayGoes(inner, n - 1, at, s, x, k, [c] + t);
      assert QuestsWay(n, at, x.pos, k) + t == QuestsWay(n - 1, at, x.pos, k) + ([c] + t);
      assert k >= n ==> Passes(inner, s, x.pos + (n - 1));
      OneQuest(inner, at + Room(n - 1, 2), s, y, c, t);
    }
  }

  /** `u` goes behind the ways of more copies than end at `pos`. */
  ghost predicate MoreFirst(n: nat, at: nat, i: nat, pos: nat, u: seq<Choice>) {
    forall k: nat | pos < i + k && k <= n :: Before(QuestsWay(n, at, i, k), u)
  }

  /** A way through optional copies takes them all, or goes behind those that take more. */
  lemma {:induction false} QuestsAhead(inner: Ast, n: nat, at: nat, s: Subject, x: Spot, w: seq<Choice>)
      returns (u: seq<Choice>)
    requires OneByte(inner) && MatchQuests(inner, n, at, s, x, w).Went?
    ensures var r := MatchQuests(inner, n, at, s, x, w);
      && w == u + r.rest && x.pos <= r.spot.pos <= x.pos + n
      && (r.spot.pos == x.pos + n ==> u == QuestsWay(n, at, x.pos, n))
      && MoreFirst(n, at, x.pos, r.spot.pos, u)
    decreases n
  {
    hide Match;
    if n == 0 {
      u := [];
    } else {
      hide Before, Room;
      var u0 := QuestsAhead(inner, n - 1, at, s, x, w);
      var r0, r := MatchQuests(inner, n - 1, at, s, x, w), MatchQuests(inner, n, at, s, x, w);
      QuestTaken(inner, at + Room(n - 1, 2), s, r0.spot, r0.rest);
      hide MatchQuests, MatchQuest;
      u := u0 + [r0.rest[0]];
      assert w == u + r.rest;
      LastQuests(n, at, x.pos, u0, r0.spot.pos - x.pos, r0.rest[0]);
    }
  }

  lemma QuestTaken(inner: Ast, at: nat, s: Subject, x: Spot, w: seq<Choice>)
    requires OneByte(inner) && MatchQuest(inner, at, s, x, w).Went?
    ensures var r := MatchQuest(inner, at, s, x, w);
      && Due(w, at, x.pos) && w == [w[0]] + r.rest
      && r.spot.pos == if w[0].later then x.pos else x.pos + 1
  {
    hide Match;
    OneStep(inner, at + 1, s, x, w[1..]);
  }

  /** The decision about the last of `n` copies, after `t` of the others have been taken. */
  lemma LastQuests(n: nat, at: nat, i: nat, u: seq<Choice>, t: nat, o: Choice)
    requires n > 0 && t < n && o.place == at + Room(n - 1, 2) && o.pos == i + t
    requires t == n - 1 ==> u == QuestsWay(n - 1, at, i, n - 1)
    requires MoreFirst(n - 1, at, i, i + t, u)
    ensures var taken := if o.later then t else t + 1;
      && (i + taken == i + n ==> u + [o] == QuestsWay(n, at, i, n))
      && MoreFirst(n, at, i, i + taken, u + [o])
  {
    hide Before, Room;
    QuestsCap(n - 1, at, i, n);
    var taken := if o.later then t else t + 1;
    forall k: nat | i + taken < i + k && k <= n ensures Before(QuestsWay(n, at, i, k), u + [o]) {
      LastQuest(n, at, i, u, t, o, k);
    }
  }

  lemma LastQuest(n: nat, at: nat, i: nat, u: seq<Choice>, t: nat, o: Choice, k: nat)
    requires n > 0 && k <= n && t < n && o.place == at + Room(n - 1, 2) && o.pos == i + t
    requires t == n - 1 ==> u == QuestsWay(n - 1, at, i, n - 1)
    requires t < Least(k, n - 1) ==> Before(QuestsWay(n - 1, at, i, Least(k, n - 1)), u)
    requires t < k && (!o.later ==> t + 1 < k)
    ensures Before(QuestsWay(n, at, i, k), u + [o])
  {
    hide Room;
    var o' := Choice(at + Room(n - 1, 2), i + Least(k, n - 1), k < n);
    QuestsCap(n - 1, at, i, k);
    if t < Least(k, n - 1) {
      BeforeAppend(QuestsWay(n - 1, at, i, k), u, [o'], [o]);
    } else {
      assert Before([o'], [o]);
      BeforeBehind(u, [o'], [o]);
    }
  }

  /** More than all copies cannot be taken. */
  lemma {:induction false} QuestsCap(n: nat, at: nat, i: nat, k: nat)
    ensures QuestsWay(n, at, i, k) == QuestsWay(n, at, i, Least(k, n))
  {
    if n > 0 {
      QuestsCap(n - 1, at, i, k);
      QuestsCap(n - 1, at, i, Least(k, n));
    }
  }

  /** Mandatory copies decide nothing. */
  lemma {:induction false} CopiesGo(inner: Ast, n: nat, at: nat, s: Subject, x: Spot, w: seq<Choice>)
    requires OneByte(inner)
    ensures var r := MatchCopies(inner, n, at, s, x, w);
      if Fit(inner, s, x.pos, x.pos + n) then r == Went(x.(pos := x.pos + n), w) else r.Stuck?
    decreases n
  {
    hide Match;
    if n > 0 {
      CopiesGo(inner, n - 1, at, s, x, w);
      var r := MatchCopies(inner, n - 1, at, s, x, w);
      if r.Went? {
        OneStep(inner, at + Room(n - 1, Size(inner)), s, r.spot, r.rest);
      }
    }
  }

  // ----- repetitions -----

  /** When a way through a repetition stops short of `j`, there is one before it that ends there. */
  lemma Further(a: Ast, at: nat, s: Subject, x: Spot, w: seq<Choice>, j: nat) returns (w': seq<Choice>)
    requires WellFormed(a) && Repetition(a) && Denotes(a, s, x.pos, j)
    requires var r := Match(a, at, s, x, w); r.Went? && r.rest == [] && r.spot.pos < j
    ensures Match(a, at, s, x, w') == Went(x.(pos := j), []) && Fresh(w') && Before(w', w)
  {
    var inner := a.inner;
    match a
    case Star(_) =>
      var n: nat :| Power(inner, n, s, x.pos, j);
      w' := FurtherStar(inner, n, at, s, x, w, j);
    case Plus(_) =>
      var n: nat :| n >= 1 && Power(inner, n, s, x.pos, j);
      PowerFits(inner, n, s, x.pos, j);
      var y := x.(pos := x.pos + 1);
      w' := StarWay(at + 1, y.pos, j);
      PlusIsStar(inner, at, s, x, w);
      PlusIsStar(inner, at, s, x, w');
      StarWayFresh(at + 1, y.pos, j);
      StarWayGoes(inner, at + 1, s, y, j);
      StarAhead(inner, at + 1, s, y, w, j);
    case Quest(_) =>
      w' := [Choice(at, x.pos, false)];
      OneStep(inner, at + 1, s, x, w'[1..]);
      OneStep(inner, at + 1, s, x, w[1..]);
    case Repeat(_, mn, mx) =>
      var n: nat :| mn <= n && (mx.Some? ==> n <= mx.value) && Power(inner, n, s, x.pos, j);
      w' := FurtherRepeat(inner, mn, mx, n, at, s, x, w, j);
  }

  lemma FurtherStar(inner: Ast, n: nat, at: nat, s: Subject, x: Spot, w: seq<Choice>, j: nat) returns (w': seq<Choice>)
    requires OneByte(inner) && Power(inner, n, s, x.pos, j)
    requires var r := MatchStar(inner, at, s, x, w); r.Went? && r.spot.pos < j
    ensures MatchStar(inner, at, s, x, w') == Went(x.(pos := j), []) && Fresh(w') && Before(w', w)
  {
    hide MatchStar, Power;
    PowerFits(inner, n, s, x.pos, j);
    w' := StarWay(at, x.pos, j);
    StarWayFresh(at, x.pos, j);
    StarWayGoes(inner, at, s, x, j);
    StarAhead(inner, at, s, x, w, j);
  }

  lemma FurtherRepeat(inner: Ast, mn: nat, mx: Option<nat>, n: nat, at: nat, s: Subject, x: Spot, w: seq<Choice>,
                      j: nat)
      returns (w': seq<Choice>)
    requires OneByte(inner) && mn <= n && (mx.Some? ==> n <= mx.value) && Power(inner, n, s, x.pos, j)
    requires var r := Match(Repeat(inner, mn, mx), at, s, x, w); r.Went? && r.rest == [] && r.spot.pos < j
    ensures Match(Repeat(inner, mn, mx), at, s, x, w') == Went(x.(pos := j), []) && Fresh(w') && Before(w', w)
  {
    hide MatchStar, MatchQuests, MatchCopies, Power;
    PowerFits(inner, n, s, x.pos, j);
    CopiesGo(inner, mn, at, s, x, w);
    OneStep(inner, at, s, x, w);
    var y, at' := x.(pos := x.pos + mn), at + Room(mn, 1);
    if mx.None? {
      w' := StarWay(at', y.pos, j);
      StarWayFresh(at', y.pos, j);
      StarWayGoes(inner, at', s, y, j);
      StarAhead(inner, at', s, y, w, j);
    } else {
      var m, k := Rest(mn, mx.value), n - mn;
      w' := QuestsWay(m, at', y.pos, k);
      QuestsWayFresh(m, at', y.pos, k);
      QuestsWayGoes(inner, m, at', s, y, k, []);
      var u := QuestsAhead(inner, m, at', s, y, w);
      assert w' + [] == w' && u + [] == u;
    }
    CopiesGo(inner, mn, at, s, x, w');
  }

  /** What is reported for a repetition of a byte test ends behind all its other matches. */
  lemma Greedy(a: Ast, s: Subject, saves: Slots, j: nat)
    requires WellFormed(a) && Repetition(a) && |saves| >= 2 && Preferred(a, s, saves)
    requires Denotes(a, s, saves[0].value, j)
    ensures saves[1].Some? && j <= saves[1].value
  {
    hide Match, Fresh;
    var q := saves[0].value;
    var w :| FirstWay(a, s, q, w, saves);
    var x := Spot(q, Saved(Blank(|saves|), 0, q));
    Whole(a, s, q, |saves|, w);
    var r := Match(a, 1, s, x, w);
    assert saves[1] == Some(r.spot.pos);
    if r.spot.pos < j {
      var w' := Further(a, 1, s, x, w, j);
      Whole(a, s, q, |saves|, w');
      var saves' := Saved(x.saves, 1, j);
      assert Way(a, s, q, w', saves');
      BeforeOnce(w', w);
    }
  }

  lemma Whole(a: Ast, s: Subject, q: nat, n: nat, w: seq<Choice>)
    ensures var r := Match(a, 1, s, Spot(q, Saved(Blank(n), 0, q)), w);
      Match(Group(0, a), 0, s, Spot(q, Blank(n)), w) ==
      if r.Stuck? then Stuck else Went(r.spot.(saves := Saved(r.spot.saves, 1, r.spot.pos)), r.rest)
  {
  }
}
