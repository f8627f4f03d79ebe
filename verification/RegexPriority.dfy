/** Which run the search follows: of all the runs to Match that never come back to a program
    counter and text position, the one whose decisions are preferred. */
module RegexPriority {
  import opened Bytes
  import opened RegexSyntax
  import opened RegexWays
  import opened RegexMachine
  import opened RegexTrace
  import opened RegexSearch

  const PLAIN: Mode := Mode(false, false)

  /** A run that ends at Match. */
  ghost predicate Wins(m: Machine, p: seq<Item>, os: seq<bool>) {
    |p| == |os| + 1 && Traced(m, 0, |m.prog|, p, os) && Last(p).pc < |m.prog| && m.prog[Last(p).pc].IMatch?
  }

  /** The run neither meets `v` nor comes back to where it was. */
  ghost predicate Clean(p: seq<Item>, v: set<Key>) {
    p == [] || (KeyOf(p[0]) !in v && Clean(p[1..], v + {KeyOf(p[0])}))
  }

  ghost predicate NoLater(w: seq<Choice>, w': seq<Choice>) {
    w == w' || Before(w, w')
  }

  /** Among the clean runs to Match from the items of `s`, none goes before the run `p` from item `k`. */
  ghost predicate Foremost(m: Machine, s: seq<Item>, v: set<Key>, k: nat, p: seq<Item>, os: seq<bool>)
    requires |p| == |os| + 1
  {
    forall i, q, qs | 0 <= i < |s| && Wins(m, q, qs) && Clean(q, v) && KeyOf(q[0]) == KeyOf(s[i]) ::
      k < i || (k == i && NoLater(Decisions(m, p, os), Decisions(m, q, qs)))
  }

  // ----- clean runs -----

  lemma {:induction false} CleanLess(p: seq<Item>, v: set<Key>, v': set<Key>)
    requires Clean(p, v) && v' <= v
    ensures Clean(p, v')
    decreases |p|
  {
    if p != [] {
      CleanLess(p[1..], v + {KeyOf(p[0])}, v' + {KeyOf(p[0])});
    }
  }

  lemma {:induction false} CleanTail(p: seq<Item>, v: set<Key>, h: nat)
    requires Clean(p, v) && h <= |p|
    ensures Clean(p[h..], v)
    decreases h
  {
    if h > 0 {
      CleanTail(p[1..], v + {KeyOf(p[0])}, h - 1);
      assert p[1..][h - 1..] == p[h..];
      CleanLess(p[h..], v + {KeyOf(p[0])}, v);
    } else {
      assert p[0..] == p;
    }
  }

  /** A key the run does not meet may be added. */
  lemma {:induction false} CleanMore(p: seq<Item>, v: set<Key>, key: Key)
    requires Clean(p, v) && forall h :: 0 <= h < |p| ==> KeyOf(p[h]) != key
    ensures Clean(p, v + {key})
    decreases |p|
  {
    if p != [] {
      CleanMore(p[1..], v + {KeyOf(p[0])}, key);
      assert v + {KeyOf(p[0])} + {key} == v + {key} + {KeyOf(p[0])};
    }
  }

  lemma {:induction false} DistinctClean(p: seq<Item>, v: set<Key>)
    requires forall i, j :: 0 <= i < j < |p| ==> KeyOf(p[i]) != KeyOf(p[j])
    requires forall i :: 0 <= i < |p| ==> KeyOf(p[i]) !in v
    ensures Clean(p, v)
    decreases |p|
  {
    if p != [] {
      DistinctClean(p[1..], v + {KeyOf(p[0])});
    }
  }

  // ----- steps of a winning run -----

  /** The step after `x` does not depend on the slots. */
  lemma SameStep(m: Machine, x: Item, x': Item, later: bool, y: Item)
    requires KeyOf(x) == KeyOf(x') && StepTo(m, x, later, y)
    ensures |Succ(m, x')| == |Succ(m, x)|
    ensures KeyOf(y) == KeyOf(Succ(m, x')[if later then 1 else 0])
    ensures later ==> Splits(m, x)
  {
  }

  lemma WinsOn(m: Machine, p: seq<Item>, os: seq<bool>)
    requires Wins(m, p, os)
    ensures p[0].pc < |m.prog|
    ensures os == [] <==> m.prog[p[0].pc].IMatch?
    ensures os != [] ==> StepTo(m, p[0], os[0], p[1]) && Wins(m, p[1..], os[1..])
    ensures os != [] ==> Decisions(m, p, os) == Decision(m, p[0], os[0]) + Decisions(m, p[1..], os[1..])
  {
    if os != [] {
      var q, qs := p[1..], os[1..];
      assert StepTo(m, p[0], os[0], p[1]);
      forall k | 0 <= k < |qs| ensures q[k].pc < |m.prog| && StepTo(m, q[k], qs[k], q[k + 1]) {
        assert StepTo(m, p[k + 1], os[k + 1], p[k + 2]);
      }
    }
  }

  lemma {:induction false} WinsTail(m: Machine, p: seq<Item>, os: seq<bool>, h: nat)
    requires Wins(m, p, os) && h < |p|
    ensures Wins(m, p[h..], os[h..])
    decreases h
  {
    if h > 0 {
      WinsOn(m, p, os);
      WinsTail(m, p[1..], os[1..], h - 1);
      assert p[1..][h - 1..] == p[h..] && os[1..][h - 1..] == os[h..];
    } else {
      assert p[0..] == p && os[0..] == os;
    }
  }

  // ----- the search takes the foremost run -----

  /** A clean run from `x` goes on from a successor of `x`, which the search has put on the stack. */
  lemma FromSuccessor(m: Machine, x: Item, rest: seq<Item>, v: set<Key>, k: nat, p: seq<Item>, os: seq<bool>,
                      q: seq<Item>, qs: seq<bool>)
    requires x.pc < |m.prog| && !m.prog[x.pc].IMatch? && |p| == |os| + 1
    requires Foremost(m, Succ(m, x) + rest, v + {KeyOf(x)}, k, p, os)
    requires Wins(m, q, qs) && Clean(q, v) && KeyOf(q[0]) == KeyOf(x)
    ensures k < |Succ(m, x)| && qs != []
    ensures var o := if qs[0] then 1 else 0;
      k < o || (k == o && NoLater(Decisions(m, p, os), Decisions(m, q[1..], qs[1..])))
  {
    hide Traced, Decisions, NoLater, StepTo;
    WinsOn(m, q, qs);
    SameStep(m, q[0], x, qs[0], q[1]);
    var o := if qs[0] then 1 else 0;
    assert KeyOf(q[1..][0]) == KeyOf((Succ(m, x) + rest)[o]);
  }

  /** In front of the foremost run, the step to where it starts. */
  lemma StepBefore(m: Machine, x: Item, rest: seq<Item>, v: set<Key>, k: nat, p: seq<Item>, os: seq<bool>)
    requires x.pc < |m.prog| && !m.prog[x.pc].IMatch? && KeyOf(x) !in v && k < |Succ(m, x)|
    requires Wins(m, p, os) && Clean(p, v + {KeyOf(x)}) && p[0] == Succ(m, x)[k]
    requires Foremost(m, Succ(m, x) + rest, v + {KeyOf(x)}, k, p, os)
    ensures Wins(m, [x] + p, [k == 1] + os) && Clean([x] + p, v)
    ensures Foremost(m, [x] + rest, v, 0, [x] + p, [k == 1] + os)
  {
    hide NoLater, Foremost, Decisions;
    var p', os' := [x] + p, [k == 1] + os;
    assert p'[1..] == p && os'[1..] == os;
    assert StepTo(m, x, k == 1, p[0]);
    assert Wins(m, p', os') by {
      forall j | 0 <= j < |os'| ensures p'[j].pc < |m.prog| && StepTo(m, p'[j], os'[j], p'[j + 1]) {
        if j > 0 {
          assert StepTo(m, p[j - 1], os[j - 1], p[j]);
        }
      }
    }
    WinsOn(m, p', os');
    assert Foremost(m, [x] + rest, v, 0, p', os') by {
      hide Wins;
      forall q, qs | Wins(m, q, qs) && Clean(q, v) && KeyOf(q[0]) == KeyOf(x)
        ensures NoLater(Decisions(m, p', os'), Decisions(m, q, qs))
      {
        FromSuccessor(m, x, rest, v, k, p, os, q, qs);
        WinsOn(m, q, qs);
        SameStep(m, q[0], x, qs[0], q[1]);
        NextNoLater(m, x, q[0], k == 1, qs[0], Decisions(m, p, os), Decisions(m, q[1..], qs[1..]));
      }
      AtFirst(m, [x] + rest, v, p', os');
    }
  }

  lemma AtFirst(m: Machine, s: seq<Item>, v: set<Key>, p: seq<Item>, os: seq<bool>)
    requires s != [] && |p| == |os| + 1
    requires forall q, qs | Wins(m, q, qs) && Clean(q, v) && KeyOf(q[0]) == KeyOf(s[0]) ::
               NoLater(Decisions(m, p, os), Decisions(m, q, qs))
    ensures Foremost(m, s, v, 0, p, os)
  {
    hide Wins, Decisions, NoLater, Clean;
  }

  /** A decision in front of two lists: the same, or the preferred one in front of the first. */
  lemma NextNoLater(m: Machine, x: Item, x': Item, later: bool, later': bool, w: seq<Choice>, w': seq<Choice>)
    requires KeyOf(x) == KeyOf(x') && (later ==> Splits(m, x)) && (later' ==> Splits(m, x))
    requires if later == later' then NoLater(w, w') else later'
    ensures NoLater(Decision(m, x, later) + w, Decision(m, x', later') + w')
  {
    var a, b := Decision(m, x, later) + w, Decision(m, x', later') + w';
    if Splits(m, x) {
      assert a[1..] == w && b[1..] == w';
    } else {
      assert a == w && b == w';
    }
  }

  /** When no run through `x` can win, runs of the other items do not meet it. */
  lemma PastIt(m: Machine, x: Item, rest: seq<Item>, v: set<Key>, k: nat, p: seq<Item>, os: seq<bool>)
    requires x.pc < |m.prog| && !m.prog[x.pc].IMatch? && |p| == |os| + 1 && |Succ(m, x)| <= k
    requires Foremost(m, Succ(m, x) + rest, v + {KeyOf(x)}, k, p, os)
    ensures Foremost(m, [x] + rest, v, k - |Succ(m, x)| + 1, p, os)
  {
    hide Traced, Decisions, NoLater, Succ;
    var s, s', n := [x] + rest, Succ(m, x) + rest, |Succ(m, x)|;
    forall i, q, qs | 0 <= i < |s| && Wins(m, q, qs) && Clean(q, v) && KeyOf(q[0]) == KeyOf(s[i])
      ensures k - n + 1 < i || (k - n + 1 == i && NoLater(Decisions(m, p, os), Decisions(m, q, qs)))
    {
      if h :| 0 <= h < |q| && KeyOf(q[h]) == KeyOf(x) {
        WinsTail(m, q, qs, h);
        CleanTail(q, v, h);
        FromSuccessor(m, x, rest, v, k, p, os, q[h..], qs[h..]);
      } else {
        assert i > 0;
        CleanMore(q, v, KeyOf(x));
        assert s'[n + i - 1] == s[i];
      }
    }
  }

  /** An item already expanded starts no clean run. */
  lemma SkipIt(m: Machine, x: Item, rest: seq<Item>, v: set<Key>, k: nat, p: seq<Item>, os: seq<bool>)
    requires KeyOf(x) in v && |p| == |os| + 1 && Foremost(m, rest, v, k, p, os)
    ensures Foremost(m, [x] + rest, v, k + 1, p, os)
  {
    hide Decisions, NoLater;
    var s := [x] + rest;
    forall i, q, qs | 0 <= i < |s| && Wins(m, q, qs) && Clean(q, v) && KeyOf(q[0]) == KeyOf(s[i])
      ensures k + 1 < i || (k + 1 == i && NoLater(Decisions(m, p, os), Decisions(m, q, qs)))
    {
      assert i > 0;
      assert s[i] == rest[i - 1];
    }
  }

  /** An item at Match is a run by itself. */
  lemma AtMatch(m: Machine, x: Item, rest: seq<Item>, v: set<Key>)
    requires x.pc < |m.prog| && m.prog[x.pc].IMatch? && KeyOf(x) !in v
    ensures Wins(m, [x], []) && Clean([x], v) && Foremost(m, [x] + rest, v, 0, [x], [])
  {
    forall q, qs | Wins(m, q, qs) && Clean(q, v) && KeyOf(q[0]) == KeyOf(x)
      ensures NoLater(Decisions(m, [x], []), Decisions(m, q, qs))
    {
      WinsOn(m, q, qs);
    }
    AtFirst(m, [x] + rest, v, [x], []);
  }

  /** The search gives the slots at the end of the foremost clean run. */
  lemma {:induction false} DfsFirst(m: Machine, s: seq<Item>, v: set<Key>)
      returns (k: nat, p: seq<Item>, os: seq<bool>)
    requires Closed(m) && AllValid(m, s) && Dfs(m, PLAIN, s, v).Some?
    ensures k < |s| && Wins(m, p, os) && |p| == |os| + 1 && p[0] == s[k] && Clean(p, v)
    ensures Dfs(m, PLAIN, s, v) == Some(Last(p).saves) && Foremost(m, s, v, k, p, os)
    decreases |States(m) - v|, |s|
  {
    hide Dfs, Succ, Closed, Foremost, Wins;
    DfsNothing(m, PLAIN, v);
    var x, rest := s[0], s[1..];
    assert s == [x] + rest;
    Unfold(m, PLAIN, x, rest, v);
    if KeyOf(x) in v {
      k, p, os := DfsFirst(m, rest, v);
      SkipIt(m, x, rest, v, k, p, os);
      k := k + 1;
    } else if Accepts(m, PLAIN, x) {
      AtMatch(m, x, rest, v);
      k, p, os := 0, [x], [];
    } else {
      SuccValid(m, x);
      FewerLeft(m, v, x);
      k, p, os := DfsFirst(m, Succ(m, x) + rest, v + {KeyOf(x)});
      if k < |Succ(m, x)| {
        StepBefore(m, x, rest, v, k, p, os);
        k, p, os := 0, [x] + p, [k == 1] + os;
      } else {
        PastIt(m, x, rest, v, k, p, os);
        CleanLess(p, v + {KeyOf(x)}, v);
        k := k - |Succ(m, x)| + 1;
      }
    }
  }

  // ----- coming back is deciding twice -----

  lemma {:induction false} CleanFresh(m: Machine, p: seq<Item>, os: seq<bool>, v: set<Key>)
    requires |p| == |os| + 1 && Clean(p, v)
    ensures Fresh(Decisions(m, p, os))
    ensures forall c :: c in Decisions(m, p, os) ==> (c.place, c.pos) !in v
    decreases |p|
  {
    if os != [] {
      CleanFresh(m, p[1..], os[1..], v + {KeyOf(p[0])});
      var rest := Decisions(m, p[1..], os[1..]);
      assert forall i :: 0 <= i < |rest| ==> rest[i] in rest;
    }
  }

  lemma Suffix<T>(a: seq<T>, b: seq<T>, n: nat)
    requires n <= |b|
    ensures (a + b)[|a + b| - n..] == b[|b| - n..]
  {
  }

  /** The decisions from step `h` on are the last ones. */
  lemma {:induction false} DecisionsTail(m: Machine, p: seq<Item>, os: seq<bool>, h: nat)
    requires |p| == |os| + 1 && h <= |os|
    ensures var w, t := Decisions(m, p, os), Decisions(m, p[h..], os[h..]);
      |t| <= |w| && w[|w| - |t|..] == t
    decreases h
  {
    if h == 0 {
      assert p[0..] == p && os[0..] == os;
    } else {
      hide Decision;
      DecisionsTail(m, p[1..], os[1..], h - 1);
      assert p[1..][h - 1..] == p[h..] && os[1..][h - 1..] == os[h..];
      Suffix(Decision(m, p[0], os[0]), Decisions(m, p[1..], os[1..]), |Decisions(m, p[h..], os[h..])|);
    }
  }

  /** Where the decision of step `h` stands in the list. */
  lemma DecisionAt(m: Machine, p: seq<Item>, os: seq<bool>, h: nat) returns (i: nat)
    requires |p| == |os| + 1 && h < |os| && Splits(m, p[h])
    ensures var w := Decisions(m, p, os);
      i < |w| && w[i] == Choice(p[h].pc, p[h].pos, os[h]) && i + |Decisions(m, p[h + 1..], os[h + 1..])| + 1 == |w|
  {
    DecisionsTail(m, p, os, h);
    var w, t := Decisions(m, p, os), Decisions(m, p[h..], os[h..]);
    assert p[h..][1..] == p[h + 1..] && os[h..][1..] == os[h + 1..];
    i := |w| - |t|;
    assert w[i] == w[|w| - |t|..][0];
  }

  /** A winning run that comes back to where it was decides something twice. */
  lemma {:induction false} ComesBack(m: Machine, p: seq<Item>, os: seq<bool>, i: nat, j: nat)
    requires Wins(m, p, os) && i < j < |p| && KeyOf(p[i]) == KeyOf(p[j])
    ensures !Fresh(Decisions(m, p, os))
    decreases |p| - j
  {
    hide Decisions;
    assert StepTo(m, p[i], os[i], p[i + 1]);
    assert j < |os|;
    assert StepTo(m, p[j], os[j], p[j + 1]);
    if Splits(m, p[i]) {
      var a := DecisionAt(m, p, os, i);
      var b := DecisionAt(m, p, os, j);
      DecisionsTail(m, p[i + 1..], os[i + 1..], j - i - 1);
      assert p[i + 1..][j - i - 1..] == p[j..] && os[i + 1..][j - i - 1..] == os[j..];
      DecisionsStep(m, p[j..], os[j..]);
      TailOfTail(p, j);
      TailOfTail(os, j);
    } else {
      SameStep(m, p[i], p[j], os[i], p[i + 1]);
      SameStep(m, p[j], p[j], os[j], p[j + 1]);
      ComesBack(m, p, os, i + 1, j + 1);
    }
  }

  lemma TailOfTail<T>(s: seq<T>, j: nat)
    requires j < |s|
    ensures s[j..][1..] == s[j + 1..]
  {
  }

  lemma DecisionsStep(m: Machine, p: seq<Item>, os: seq<bool>)
    requires |p| == |os| + 1 && os != []
    ensures |Decisions(m, p, os)| == |Decisions(m, p[1..], os[1..])| + if Splits(m, p[0]) then 1 else 0
  {
  }

  /** A winning run is clean exactly if it decides nothing twice. */
  lemma CleanIffFresh(m: Machine, p: seq<Item>, os: seq<bool>)
    requires Wins(m, p, os)
    ensures |p| == |os| + 1 && (Clean(p, {}) <==> Fresh(Decisions(m, p, os)))
  {
    hide Decisions, Fresh;
    if Clean(p, {}) {
      CleanFresh(m, p, os, {});
    } else if i, j :| 0 <= i < j < |p| && KeyOf(p[i]) == KeyOf(p[j]) {
      ComesBack(m, p, os, i, j);
    } else {
      DistinctClean(p, {});
    }
  }
}
