/** Compiled programs, searched: the leftmost match, with its capture groups. */
module RegexTheorems {
  import opened Bytes
  import opened RegexSyntax
  import opened RegexWays
  import opened RegexMeaning
  import opened RegexMachine
  import opened RegexCode
  import opened RegexTrace
  import opened RegexCompiler
  import RegexComplete
  import opened RegexSearch
  import opened RegexPriority
  import opened RegexVm

  /** The whole program of an expression. */
  function Program(ast: Ast): seq<Inst> {
    [ISave(0)] + Code(ast, 1) + [ISave(1)] + [IMatch]
  }

  function Slotcount(ast: Ast): nat { 2 * (GroupCount(ast) + 1) }

  /** `m` runs the program of a parsed expression. */
  ghost predicate ProgramOf(m: Machine, ast: Ast) {
    WellFormed(ast) && Numbered(ast, 0) && m.prog == Program(ast)
  }

  lemma Layout(m: Machine, ast: Ast)
    requires ProgramOf(m, ast)
    ensures var c := Code(ast, 1);
      && |m.prog| == |c| + 3 && At(m.prog, 1, c)
      && m.prog[0] == ISave(0) && m.prog[|c| + 1] == ISave(1) && m.prog[|c| + 2] == IMatch
  {
    hide Code;
  }

  /** Every jump, split target and pc + 1 of a compiled program is in range. */
  lemma CompiledClosed(m: Machine, ast: Ast)
    requires ProgramOf(m, ast)
    ensures Closed(m)
    ensures forall pc :: 0 <= pc < |m.prog| - 1 ==> !m.prog[pc].IMatch?
  {
    hide Code;
    Layout(m, ast);
    FragmentClosed(m.prog, ast, 1);
    forall pc | 0 <= pc < |m.prog|
      ensures forall t :: t in Targets(m.prog[pc], pc) ==> t < |m.prog|
      ensures pc < |m.prog| - 1 ==> !m.prog[pc].IMatch?
    {
      if 1 <= pc < |m.prog| - 2 {
        assert TargetsWithin(m.prog[pc], pc, 1, |m.prog| - 2);
      }
    }
  }

  /** Every capture slot a compiled program writes exists. */
  lemma SlotsInRange(ast: Ast, n: nat, inner: Ast)
    requires Numbered(ast, 0) && HasGroup(ast, n, inner)
    ensures 1 <= n && 2 * n + 1 < Slotcount(ast)
  {
    GroupRange(ast, 0, n, inner);
  }

  // ----- a run from a start to Match -----

  /** What a finished run from start `s` has in its slots: the overall span, which the
      expression denotes, and for each group nothing or a span its body denotes. */
  ghost predicate GoodSlots(ast: Ast, subject: Subject, saves: Slots, s: nat, e: nat) {
    && |saves| == Slotcount(ast)
    && saves[0] == Some(s) && saves[1] == Some(e) && Denotes(ast, subject, s, e)
    && forall n: nat :: n >= 1 && 2 * n + 1 < |saves| ==> GoodGroup(ast, subject, saves, n, s, e)
  }

  ghost predicate GoodGroup(ast: Ast, subject: Subject, saves: Slots, n: nat, s: nat, e: nat)
    requires 2 * n + 1 < |saves|
  {
    (saves[2 * n] == None && saves[2 * n + 1] == None) ||
    exists inner :: HasGroup(ast, n, inner) && Captured(inner, subject, saves, n, s, e)
  }

  function Seed(ast: Ast, s: nat): Item { Item(0, s, Blank(Slotcount(ast))) }

  /** A run from a start to Match is a way of the whole pattern from there. */
  lemma RunIsWay(m: Machine, ast: Ast, s: nat, p: seq<Item>, os: seq<bool>)
    requires ProgramOf(m, ast) && Traced(m, 0, |m.prog|, p, os)
    requires p[0] == Seed(ast, s) && Last(p).pc == |m.prog| - 1
    ensures Match(Group(0, ast), 0, m.subject, SpotOf(p[0]), Decisions(m, p, os)) == Went(SpotOf(Last(p)), [])
  {
    hide Code, Decisions, Match;
    Layout(m, ast);
    var hi := |m.prog| - 1;
    forall k | 0 <= k < |os| ensures p[k].pc < hi {
      assert StepTo(m, p[k], os[k], p[k + 1]);
      assert m.prog[hi] == IMatch;
    }
    WholeCode(m, ast);
    var q, qs := Through(m, Group(0, ast), 0, 0, hi, p, os);
    AtEnd(m, 0, hi, q, qs);
  }

  lemma WholeCode(m: Machine, ast: Ast)
    requires ProgramOf(m, ast)
    ensures |Code(Group(0, ast), 0)| == |m.prog| - 1 && At(m.prog, 0, Code(Group(0, ast), 0))
  {
    assert m.prog == Code(Group(0, ast), 0) + [IMatch];
  }

  lemma AtEnd(m: Machine, lo: nat, hi: nat, p: seq<Item>, os: seq<bool>)
    requires Traced(m, lo, hi, p, os) && p[0].pc == hi
    ensures os == [] && |p| == 1 && Decisions(m, p, os) == []
  {
  }

  lemma RunToMatch(m: Machine, ast: Ast, s: nat, p: seq<Item>)
    requires ProgramOf(m, ast) && s <= |m.subject.text|
    requires PathIn(m, 0, |m.prog|, p) && p[0] == Seed(ast, s) && Last(p).pc == |m.prog| - 1
    ensures GoodSlots(ast, m.subject, Last(p).saves, s, Last(p).pos)
    ensures s <= Last(p).pos <= |m.subject.text|
  {
    hide Code, Match, Decisions, Traced;
    var os := PathTraced(m, 0, |m.prog|, p);
    assert |p| == |os| + 1 by { TracedLength(m, p, os); }
    RunIsWay(m, ast, s, p, os);
    WaySlots(ast, m.subject, s, Decisions(m, p, os), SpotOf(Last(p)));
    PathMonotone(m, 0, |m.prog|, p);
  }

  lemma TracedLength(m: Machine, p: seq<Item>, os: seq<bool>)
    requires Traced(m, 0, |m.prog|, p, os)
    ensures |p| == |os| + 1
  {
  }

  /** What a way of the whole pattern leaves in the slots. */
  lemma WaySlots(ast: Ast, subject: Subject, s: nat, w: seq<Choice>, z: Spot)
    requires WellFormed(ast) && Numbered(ast, 0) && s <= |subject.text|
    requires Match(Group(0, ast), 0, subject, Spot(s, Blank(Slotcount(ast))), w) == Went(z, [])
    ensures GoodSlots(ast, subject, z.saves, s, z.pos)
  {
    var x := Spot(s, Saved(Blank(Slotcount(ast)), 0, s));
    Sound(ast, 1, 0, subject, x, w);
    FinalSlots(subject, ast, s, x, Match(ast, 1, subject, x, w).spot, z);
  }

  lemma FinalSlots(subject: Subject, ast: Ast, s: nat, x: Spot, y: Spot, z: Spot)
    requires Numbered(ast, 0) && Effect(ast, subject, x, y)
    requires x.pos == s && x.saves == Saved(Blank(Slotcount(ast)), 0, s)
    requires z.pos == y.pos && z.saves == Saved(y.saves, 1, y.pos)
    ensures GoodSlots(ast, subject, z.saves, s, z.pos)
  {
    assert CapOk(ast, subject, x, y, 0);
    if exists inner :: HasGroup(ast, 0, inner) {
      var inner :| HasGroup(ast, 0, inner);
      GroupRange(ast, 0, 0, inner);
    }
    forall n: nat | n >= 1 && 2 * n + 1 < |z.saves| ensures GoodGroup(ast, subject, z.saves, n, s, z.pos) {
      assert CapOk(ast, subject, x, y, n);
      if !SamePair(x.saves, y.saves, n) {
        var inner :| HasGroup(ast, n, inner) && Captured(inner, subject, y.saves, n, x.pos, y.pos);
        assert Captured(inner, subject, z.saves, n, s, z.pos);
      }
    }
  }

  /** Every way of the whole pattern is a run to Match. */
  lemma WayHasRun(m: Machine, ast: Ast, s: nat, w: seq<Choice>) returns (p: seq<Item>, os: seq<bool>)
    requires ProgramOf(m, ast)
    requires var r := Match(Group(0, ast), 0, m.subject, SpotOf(Seed(ast, s)), w); r.Went? && r.rest == []
    ensures var y := Match(Group(0, ast), 0, m.subject, SpotOf(Seed(ast, s)), w).spot;
      Traced(m, 0, |m.prog|, p, os) && p[0] == Seed(ast, s) && Last(p) == Item(|m.prog| - 1, y.pos, y.saves)
    ensures Decisions(m, p, os) == w
  {
    hide Code, Match, Decisions;
    WholeCode(m, ast);
    var x, hi, r := Seed(ast, s), |m.prog| - 1, Match(Group(0, ast), 0, m.subject, SpotOf(Seed(ast, s)), w);
    RegexComplete.Complete(m, Group(0, ast), 0, x, w);
    var y := RegexComplete.Arrived(hi, r.spot);
    assert Leads(m, 0, hi, x, w, y) by {
      var used :| w == used + r.rest && Leads(m, 0, hi, x, used, y);
      assert used + [] == used;
    }
    WidenLeads(m, 0, |m.prog|, 0, hi, x, w, y);
    p, os :| Runs(m, 0, |m.prog|, x, w, y, p, os);
  }

  lemma MatchHasRun(m: Machine, ast: Ast, s: nat, e: nat) returns (p: seq<Item>)
    requires ProgramOf(m, ast) && Denotes(ast, m.subject, s, e)
    ensures PathIn(m, 0, |m.prog|, p) && p[0] == Seed(ast, s) && KeyOf(Last(p)) == (|m.prog| - 1, e)
  {
    hide Code, Match, Decisions, Traced;
    assert Denotes(Group(0, ast), m.subject, s, e) by { DenotesInText(ast, m.subject, s, e); }
    var w := Complete(Group(0, ast), 0, m.subject, SpotOf(Seed(ast, s)), e);
    var run, os := WayHasRun(m, ast, s, w);
    p := run;
    TracedPath(m, 0, |m.prog|, p, os);
  }

  // ----- the way the search takes -----

  /** The search gives the slots of the preferred way from its start, among those that decide
      nothing twice. */
  lemma ReferenceFirst(m: Machine, ast: Ast, from: nat)
    requires ProgramOf(m, ast) && Closed(m) && from <= |m.subject.text|
    requires Reference(m, Slotcount(ast), PLAIN, from, |m.subject.text|).Some?
    ensures Preferred(ast, m.subject, Reference(m, Slotcount(ast), PLAIN, from, |m.subject.text|).value)
  {
    hide Code, Dfs, Match, Decisions, Foremost, Fresh, NoLater, Clean;
    var nslots, to := Slotcount(ast), |m.subject.text|;
    SeedsValid(m, nslots, from, to);
    var s := Seeds(nslots, from, to);
    var k, p, os := DfsFirst(m, s, {});
    SeedAt(nslots, from, to, k);
    var q := from + k;
    CompiledClosed(m, ast);
    assert Last(p).pc == |m.prog| - 1;
    RunIsWay(m, ast, q, p, os);
    CleanIffFresh(m, p, os);
    TracedPath(m, 0, |m.prog|, p, os);
    PathMonotone(m, 0, |m.prog|, p);
    RunToMatch(m, ast, q, p);
    var w, saves := Decisions(m, p, os), Last(p).saves;
    assert |saves| == nslots;
    forall w', saves' | |saves'| == |saves| && Way(ast, m.subject, q, w', saves') && Fresh(w')
      ensures w == w' || Before(w, w')
    {
      var p', os' := WayHasRun(m, ast, q, w');
      Layout(m, ast);
      CleanIffFresh(m, p', os');
      ForemostOf(m, s, {}, k, p, os, k, p', os');
    }
    assert FirstWay(ast, m.subject, q, w, saves);
  }

  lemma ForemostOf(m: Machine, s: seq<Item>, v: set<Key>, k: nat, p: seq<Item>, os: seq<bool>, i: nat, q: seq<Item>,
                   qs: seq<bool>)
    requires |p| == |os| + 1 && Foremost(m, s, v, k, p, os)
    requires i < |s| && Wins(m, q, qs) && Clean(q, v) && KeyOf(q[0]) == KeyOf(s[i]) && i <= k
    ensures |q| == |qs| + 1
    ensures var w, w' := Decisions(m, p, os), Decisions(m, q, qs); w == w' || Before(w, w')
  {
  }

  lemma {:induction false} SeedAt(nslots: nat, q: nat, to: nat, k: nat)
    requires k < |Seeds(nslots, q, to)|
    ensures q + k <= to && Seeds(nslots, q, to)[k] == Item(0, q + k, Blank(nslots))
    decreases k
  {
    if k > 0 {
      SeedAt(nslots, q + 1, to, k - 1);
    }
  }

  // ----- what the search finds -----

  /** A match that ends at `e` and starts at one of the starts from `from` up to, not including, `q`. */
  ghost predicate Ends(ast: Ast, subject: Subject, from: nat, q: nat, e: nat) {
    exists s: nat :: from <= s < q && Denotes(ast, subject, s, e)
  }

  /** The matches that can be found, searching from `from` on: a match that passes the filters,
      and no earlier start has a match with the same end, filtered out or not. */
  ghost predicate Findable(ast: Ast, subject: Subject, mode: Mode, from: nat, s: nat, e: nat) {
    && e <= |subject.text| && Denotes(ast, subject, s, e)
    && AcceptSpan(subject.text, s, e, mode) && !Ends(ast, subject, from, s, e)
  }

  /** The answer is a findable match of the first start that has one, or there is none. */
  ghost predicate FirstFindable(ast: Ast, subject: Subject, mode: Mode, from: nat, q: nat, to: nat, r: Option<Slots>) {
    match r
    case None => forall s: nat, e: nat :: q <= s <= to ==> !Findable(ast, subject, mode, from, s, e)
    case Some(saves) =>
      exists s: nat, e: nat ::
        q <= s <= to && GoodSlots(ast, subject, saves, s, e) && Findable(ast, subject, mode, from, s, e) &&
        forall s': nat, e': nat :: q <= s' < s ==> !Findable(ast, subject, mode, from, s', e')
  }

  /** The starts from `from` up to `q` have been searched: Match was expanded at the ends of their
      matches and nowhere else. */
  ghost predicate Searched(m: Machine, ast: Ast, from: nat, q: nat, v: set<Key>) {
    Dead(m, {}, v, {}) && forall e: nat :: e <= |m.subject.text| ==> MatchExpanded(m, ast, from, q, v, e)
  }

  ghost predicate MatchExpanded(m: Machine, ast: Ast, from: nat, q: nat, v: set<Key>, e: nat) {
    (|m.prog| - 1, e) in v <==> Ends(ast, m.subject, from, q, e)
  }

  /** Runs from a start that is accepted with end `e` are accepted whenever they end at `e`. */
  lemma SeedGuarded(m: Machine, ast: Ast, mode: Mode, s: nat, e: nat)
    requires ProgramOf(m, ast) && s <= |m.subject.text| && e <= |m.subject.text|
    requires AcceptSpan(m.subject.text, s, e, mode)
    ensures Guarded(m, mode, {(|m.prog| - 1, e)}, Seed(ast, s))
  {
    Layout(m, ast);
    forall p: seq<Item> | PathIn(m, 0, |m.prog|, p) && p[0] == Seed(ast, s) && KeyOf(Last(p)) in {(|m.prog| - 1, e)}
      ensures Valid(m, Last(p)) && Accepts(m, mode, Last(p))
    {
      RunToMatch(m, ast, s, p);
    }
  }

  lemma DenotesInText(ast: Ast, subject: Subject, s: nat, e: nat)
    requires Denotes(ast, subject, s, e)
    ensures s <= e <= |subject.text|
  {
  }

  /** A start whose search was fruitless has no findable match. */
  lemma NothingFindable(m: Machine, ast: Ast, mode: Mode, from: nat, q: nat, e: nat, v: set<Key>)
    requires ProgramOf(m, ast) && Closed(m) && q <= |m.subject.text| && Searched(m, ast, from, q, v)
    requires Dfs(m, mode, [Seed(ast, q)], v).None?
    ensures !Findable(ast, m.subject, mode, from, q, e)
  {
    hide Denotes, Code, Dfs, Dead, Guarded, Ends;
    if Findable(ast, m.subject, mode, from, q, e) {
      assert MatchExpanded(m, ast, from, q, v, e);
      var goal, seed := {(|m.prog| - 1, e)}, [Seed(ast, q)];
      SeedGuarded(m, ast, mode, q, e);
      DeadFor(m, goal, v, Keys(seed));
      DfsComplete(m, mode, seed, v, goal);
      var p := MatchHasRun(m, ast, q, e);
      SeedKey(ast, q);
      StaysDead(m, goal, Explored(m, mode, seed, v), p);
    }
  }

  lemma DeadFor(m: Machine, goal: set<Key>, v: set<Key>, pending: set<Key>)
    requires Dead(m, {}, v, {}) && v !! goal
    ensures Dead(m, goal, v, pending)
  {
  }

  lemma SeedKey(ast: Ast, q: nat)
    ensures (0, q) in Keys([Seed(ast, q)])
  {
    assert Seed(ast, q) in [Seed(ast, q)] && KeyOf(Seed(ast, q)) == (0, q);
  }

  /** A fruitless search of one more start. */
  lemma SearchedNext(m: Machine, ast: Ast, mode: Mode, from: nat, q: nat, v: set<Key>)
    requires ProgramOf(m, ast) && Closed(m) && from <= q <= |m.subject.text| && Searched(m, ast, from, q, v)
    requires Dfs(m, mode, [Seed(ast, q)], v).None?
    ensures Searched(m, ast, from, q + 1, Explored(m, mode, [Seed(ast, q)], v))
  {
    hide Denotes, Code, Dfs, Dead;
    var seed, next := [Seed(ast, q)], q + 1;
    var u := Explored(m, mode, seed, v);
    DeadFor(m, {}, v, Keys(seed));
    assert GoalsAccept(m, mode, {}, seed);
    DfsComplete(m, mode, seed, v, {});
    SeedKey(ast, q);
    forall e: nat | e <= |m.subject.text| ensures MatchExpanded(m, ast, from, next, u, e) {
      assert MatchExpanded(m, ast, from, q, v, e);
      EndsNext(ast, m.subject, from, q, e);
      var key := (|m.prog| - 1, e);
      if Denotes(ast, m.subject, q, e) {
        var p := MatchHasRun(m, ast, q, e);
        StaysDead(m, {}, u, p);
      } else if key in u && key !in v {
        var k, p := ExploredReached(m, mode, seed, v, key);
        RunToMatch(m, ast, q, p);
      }
    }
  }

  lemma EndsNext(ast: Ast, subject: Subject, from: nat, q: nat, e: nat)
    requires from <= q
    ensures Ends(ast, subject, from, q + 1, e) <==> Ends(ast, subject, from, q, e) || Denotes(ast, subject, q, e)
  {
    hide Denotes;
  }

  /** In every mode, trying the starts in increasing order finds exactly the first findable match. */
  lemma {:induction false} SearchStarts(m: Machine, ast: Ast, mode: Mode, from: nat, q: nat, to: nat, v: set<Key>)
    requires ProgramOf(m, ast) && Closed(m) && to <= |m.subject.text| && from <= q && Searched(m, ast, from, q, v)
    ensures AllValid(m, Seeds(Slotcount(ast), q, to))
    ensures FirstFindable(ast, m.subject, mode, from, q, to, Dfs(m, mode, Seeds(Slotcount(ast), q, to), v))
    decreases if q <= to then to - q + 1 else 0
  {
    hide Denotes, Code, Dfs, GoodSlots, Findable, Searched, FirstFindable;
    SeedsValid(m, Slotcount(ast), q, to);
    if q > to {
      DfsNothing(m, mode, v);
      NothingLeft(ast, m.subject, mode, from, q, to);
    } else {
      var seed, rest := [Seed(ast, q)], Seeds(Slotcount(ast), q + 1, to);
      SeedsValid(m, Slotcount(ast), q + 1, to);
      DfsAppend(m, mode, seed, rest, v);
      assert seed + rest == Seeds(Slotcount(ast), q, to);
      if Dfs(m, mode, seed, v).Some? {
        FoundHere(m, ast, mode, from, q, to, v);
      } else {
        var u := Explored(m, mode, seed, v);
        forall e: nat ensures !Findable(ast, m.subject, mode, from, q, e) {
          NothingFindable(m, ast, mode, from, q, e, v);
        }
        SearchedNext(m, ast, mode, from, q, v);
        SearchStarts(m, ast, mode, from, q + 1, to, u);
        LaterFound(ast, m.subject, mode, from, q, to, Dfs(m, mode, rest, u));
      }
    }
  }

  lemma NothingLeft(ast: Ast, subject: Subject, mode: Mode, from: nat, q: nat, to: nat)
    requires q > to
    ensures FirstFindable(ast, subject, mode, from, q, to, None)
  {
    hide Findable;
  }

  lemma FoundHere(m: Machine, ast: Ast, mode: Mode, from: nat, q: nat, to: nat, v: set<Key>)
    requires ProgramOf(m, ast) && Closed(m) && q <= to <= |m.subject.text| && Searched(m, ast, from, q, v)
    requires Dfs(m, mode, [Seed(ast, q)], v).Some?
    ensures FirstFindable(ast, m.subject, mode, from, q, to, Dfs(m, mode, [Seed(ast, q)], v))
  {
    hide Denotes, Code, Dfs, Dead, Ends;
    var k, p := DfsSound(m, mode, [Seed(ast, q)], v);
    FoundFrom(m, ast, mode, q, p);
    assert MatchExpanded(m, ast, from, q, v, Last(p).pos);
    assert Findable(ast, m.subject, mode, from, q, Last(p).pos);
  }

  lemma LaterFound(ast: Ast, subject: Subject, mode: Mode, from: nat, q: nat, to: nat, r: Option<Slots>)
    requires FirstFindable(ast, subject, mode, from, q + 1, to, r)
    requires forall e: nat :: !Findable(ast, subject, mode, from, q, e)
    ensures FirstFindable(ast, subject, mode, from, q, to, r)
  {
    hide Findable, GoodSlots;
  }

  /** The search as a whole. */
  lemma ReferenceExact(m: Machine, ast: Ast, mode: Mode, from: nat, to: nat)
    requires ProgramOf(m, ast) && Closed(m) && to <= |m.subject.text|
    ensures FirstFindable(ast, m.subject, mode, from, from, to, Reference(m, Slotcount(ast), mode, from, to))
  {
    hide Denotes, Dfs, FirstFindable;
    SearchStarts(m, ast, mode, from, from, to, {});
  }

  // ----- without -w: the leftmost match -----

  /** Some start has the first match with a given end. */
  lemma {:induction false} EarliestStart(ast: Ast, subject: Subject, from: nat, s: nat, e: nat) returns (s0: nat)
    requires from <= s && Denotes(ast, subject, s, e)
    ensures from <= s0 <= s && Denotes(ast, subject, s0, e) && !Ends(ast, subject, from, s0, e)
    decreases s
  {
    hide Denotes;
    s0 := s;
    if Ends(ast, subject, from, s, e) {
      var s1: nat :| from <= s1 < s && Denotes(ast, subject, s1, e);
      s0 := EarliestStart(ast, subject, from, s1, e);
    }
  }

  /** No match starts before the one reported, or there is no match at all. */
  ghost predicate LeftmostFrom(ast: Ast, subject: Subject, from: nat, r: Option<Slots>) {
    match r
    case None => forall s: nat, e: nat :: from <= s ==> !Denotes(ast, subject, s, e)
    case Some(saves) =>
      exists s: nat, e: nat ::
        from <= s <= e <= |subject.text| && GoodSlots(ast, subject, saves, s, e) &&
        forall s': nat, e': nat :: from <= s' < s ==> !Denotes(ast, subject, s', e')
  }

  lemma Leftmost(ast: Ast, subject: Subject, from: nat, r: Option<Slots>)
    requires FirstFindable(ast, subject, Mode(false, false), from, from, |subject.text|, r)
    ensures LeftmostFrom(ast, subject, from, r)
  {
    hide Denotes, Ends;
    var mode, last := Mode(false, false), |subject.text|;
    forall s': nat, e': nat | from <= s' && Denotes(ast, subject, s', e')
      ensures exists s0: nat, e0: nat :: from <= s0 <= s' && s0 <= last && Findable(ast, subject, mode, from, s0, e0)
    {
      DenotesInText(ast, subject, s', e');
      var s0 := EarliestStart(ast, subject, from, s', e');
      assert Findable(ast, subject, mode, from, s0, e');
    }
    if r.Some? {
      var s: nat, e: nat :|
        from <= s <= last && GoodSlots(ast, subject, r.value, s, e) && Findable(ast, subject, mode, from, s, e) &&
        forall s': nat, e': nat :: from <= s' < s ==> !Findable(ast, subject, mode, from, s', e');
      DenotesInText(ast, subject, s, e);
    }
  }

  lemma FoundFrom(m: Machine, ast: Ast, mode: Mode, q: nat, p: seq<Item>)
    requires ProgramOf(m, ast) && q <= |m.subject.text| && Winning(m, mode, p) && p[0] == Seed(ast, q)
    ensures GoodSlots(ast, m.subject, Last(p).saves, q, Last(p).pos)
    ensures Last(p).pc == |m.prog| - 1 && AcceptSpan(m.subject.text, q, Last(p).pos, mode)
  {
    Layout(m, ast);
    CompiledClosed(m, ast);
    RunToMatch(m, ast, q, p);
  }
}
