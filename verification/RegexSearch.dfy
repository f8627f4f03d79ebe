/** The reference matcher: a depth-first backtracking search that tries the preferred branch
    first and expands each (pc, position) at most once. */
module RegexSearch {
  import opened Bytes
  import opened RegexSyntax
  import opened RegexMachine

  /** The acceptance filters of `-x` and `-w`. */
  datatype Mode = Mode(wholeLine: bool, word: bool)

  type Key = (nat, nat)

  function KeyOf(x: Item): Key { (x.pc, x.pos) }

  /** `-x` and `-w` acceptance of the span [start, end). */
  predicate AcceptSpan(text: seq<Byte>, start: nat, end: nat, mode: Mode)
    requires end <= |text|
  {
    && (mode.wholeLine ==> start == 0 && end == |text|)
    && (mode.word ==>
          && (start == 0 || (start <= |text| && !IsWord(text[start - 1])))
          && (end == |text| || !IsWord(text[end])))
  }

  function StartOf(x: Item): nat {
    if x.saves != [] && x.saves[0].Some? then x.saves[0].value else x.pos
  }

  predicate Accepts(m: Machine, mode: Mode, x: Item)
    requires Valid(m, x)
  {
    m.prog[x.pc].IMatch? && AcceptSpan(m.subject.text, StartOf(x), x.pos, mode)
  }

  /** Control cannot run off the program. */
  ghost predicate Closed(m: Machine) {
    m.prog != [] &&
    forall pc :: 0 <= pc < |m.prog| ==>
      forall t :: t in Targets(m.prog[pc], pc) ==> t < |m.prog|
  }

  predicate Valid(m: Machine, x: Item) {
    x.pc < |m.prog| && x.pos <= |m.subject.text|
  }

  ghost predicate AllValid(m: Machine, s: seq<Item>) {
    forall k :: 0 <= k < |s| ==> Valid(m, s[k])
  }

  function States(m: Machine): set<Key> {
    set pc: nat, pos: nat | 0 <= pc < |m.prog| && 0 <= pos <= |m.subject.text| :: (pc, pos)
  }

  lemma SuccValid(m: Machine, x: Item)
    requires Closed(m) && Valid(m, x)
    ensures AllValid(m, Succ(m, x))
    ensures forall k :: 0 <= k < |Succ(m, x)| ==> x.pos <= Succ(m, x)[k].pos <= x.pos + 1
    ensures IsLeaf(m.prog[x.pc]) ==> forall k :: 0 <= k < |Succ(m, x)| ==> Succ(m, x)[k].pos == x.pos + 1
    ensures !IsLeaf(m.prog[x.pc]) ==> forall k :: 0 <= k < |Succ(m, x)| ==> Succ(m, x)[k].pos == x.pos
  {
    forall k | 0 <= k < |Succ(m, x)| ensures Valid(m, Succ(m, x)[k]) {
      SuccShape(m, x, Succ(m, x)[k]);
    }
  }

  lemma FewerLeft(m: Machine, v: set<Key>, x: Item)
    requires Valid(m, x) && KeyOf(x) !in v
    ensures |States(m) - (v + {KeyOf(x)})| < |States(m) - v|
  {
    var before, after := States(m) - v, States(m) - (v + {KeyOf(x)});
    assert KeyOf(x) in States(m);
    assert after == before - {KeyOf(x)};
  }

  /** Depth-first search from the items of `stack`, first item first. `v` holds what has been
      expanded already. The result is the capture slots of the first accepting item. */
  ghost function Dfs(m: Machine, mode: Mode, stack: seq<Item>, v: set<Key>): Option<Slots>
    requires Closed(m) && AllValid(m, stack)
    decreases |States(m) - v|, |stack|
  {
    if stack == [] then None
    else
      var x, rest := stack[0], stack[1..];
      if KeyOf(x) in v then Dfs(m, mode, rest, v)
      else if Accepts(m, mode, x) then Some(x.saves)
      else
        SuccValid(m, x);
        FewerLeft(m, v, x);
        Dfs(m, mode, Succ(m, x) + rest, v + {KeyOf(x)})
  }

  // ----- working in the middle of the stack -----

  /** Everything on the stack is at position `p` or later. */
  ghost predicate From(s: seq<Item>, p: nat) {
    forall k :: 0 <= k < |s| ==> p <= s[k].pos
  }

  lemma Unfold(m: Machine, mode: Mode, x: Item, rest: seq<Item>, v: set<Key>)
    requires Closed(m) && Valid(m, x) && AllValid(m, rest)
    ensures AllValid(m, Succ(m, x) + rest)
    ensures Dfs(m, mode, [x] + rest, v) ==
            if KeyOf(x) in v then Dfs(m, mode, rest, v)
            else if Accepts(m, mode, x) then Some(x.saves)
            else Dfs(m, mode, Succ(m, x) + rest, v + {KeyOf(x)})
  {
    SuccValid(m, x);
    assert ([x] + rest)[1..] == rest;
  }

  lemma DfsNothing(m: Machine, mode: Mode, v: set<Key>)
    requires Closed(m)
    ensures Dfs(m, mode, [], v) == None
  {
  }

  /** An item already expanded may be dropped wherever it stands. */
  lemma {:induction false} MidSkip(m: Machine, mode: Mode, d: seq<Item>, x: Item, r: seq<Item>, v: set<Key>)
    requires Closed(m) && AllValid(m, d) && AllValid(m, r) && Valid(m, x) && KeyOf(x) in v
    ensures Dfs(m, mode, d + [x] + r, v) == Dfs(m, mode, d + r, v)
    decreases |States(m) - v|, |d|
  {
    hide Dfs, Accepts, Succ, Closed;
    if d == [] {
      assert d + [x] + r == [x] + r && d + r == r;
      Unfold(m, mode, x, r, v);
    } else {
      var y, d' := d[0], d[1..];
      assert d + [x] + r == [y] + (d' + [x] + r) && d + r == [y] + (d' + r);
      Unfold(m, mode, y, d' + [x] + r, v);
      Unfold(m, mode, y, d' + r, v);
      if KeyOf(y) in v {
        MidSkip(m, mode, d', x, r, v);
      } else if !Accepts(m, mode, y) {
        SuccValid(m, y);
        FewerLeft(m, v, y);
        MidSkip(m, mode, Succ(m, y) + d', x, r, v + {KeyOf(y)});
        assert Succ(m, y) + d' + [x] + r == Succ(m, y) + (d' + [x] + r);
        assert Succ(m, y) + d' + r == Succ(m, y) + (d' + r);
      }
    }
  }

  /** An item may be expanded before the later positions in front of it are searched. */
  lemma {:induction false} MidExpand(m: Machine, mode: Mode, d: seq<Item>, x: Item, r: seq<Item>, v: set<Key>)
    requires Closed(m) && AllValid(m, d) && AllValid(m, r) && Valid(m, x)
    requires KeyOf(x) !in v && !Accepts(m, mode, x) && From(d, x.pos + 1)
    ensures AllValid(m, Succ(m, x))
    ensures Dfs(m, mode, d + [x] + r, v) == Dfs(m, mode, d + Succ(m, x) + r, v + {KeyOf(x)})
    decreases |States(m) - v|, |d|
  {
    hide Dfs, Accepts, Succ, Closed;
    SuccValid(m, x);
    var s, v' := Succ(m, x), v + {KeyOf(x)};
    if d == [] {
      assert d + [x] + r == [x] + r && d + s + r == s + r;
      Unfold(m, mode, x, r, v);
    } else {
      var y, d' := d[0], d[1..];
      assert d + [x] + r == [y] + (d' + [x] + r) && d + s + r == [y] + (d' + s + r);
      Unfold(m, mode, y, d' + [x] + r, v);
      Unfold(m, mode, y, d' + s + r, v');
      assert KeyOf(y) != KeyOf(x);
      if KeyOf(y) in v {
        MidExpand(m, mode, d', x, r, v);
      } else if !Accepts(m, mode, y) {
        SuccValid(m, y);
        FewerLeft(m, v, y);
        MidExpand(m, mode, Succ(m, y) + d', x, r, v + {KeyOf(y)});
        assert Succ(m, y) + d' + [x] + r == Succ(m, y) + (d' + [x] + r);
        assert Succ(m, y) + d' + s + r == Succ(m, y) + (d' + s + r);
        assert v + {KeyOf(y)} + {KeyOf(x)} == v' + {KeyOf(y)};
      }
    }
  }

  function Prefer(a: Option<Slots>, b: Option<Slots>): Option<Slots> {
    if a.Some? then a else b
  }

  /** An accepting item cuts everything behind it, but not the items in front of it. */
  lemma {:induction false} MidAccept(m: Machine, mode: Mode, d: seq<Item>, x: Item, r: seq<Item>, v: set<Key>)
    requires Closed(m) && AllValid(m, d) && AllValid(m, r) && Valid(m, x)
    requires KeyOf(x) !in v && Accepts(m, mode, x) && From(d, x.pos + 1)
    ensures Dfs(m, mode, d + [x] + r, v) == Prefer(Dfs(m, mode, d, v), Some(x.saves))
    decreases |States(m) - v|, |d|
  {
    hide Dfs, Accepts, Succ, Closed;
    if d == [] {
      assert d + [x] + r == [x] + r;
      Unfold(m, mode, x, r, v);
      DfsNothing(m, mode, v);
    } else {
      var y, d' := d[0], d[1..];
      assert d + [x] + r == [y] + (d' + [x] + r) && d == [y] + d';
      Unfold(m, mode, y, d' + [x] + r, v);
      Unfold(m, mode, y, d', v);
      if KeyOf(y) in v {
        MidAccept(m, mode, d', x, r, v);
      } else if !Accepts(m, mode, y) {
        SuccValid(m, y);
        FewerLeft(m, v, y);
        MidAccept(m, mode, Succ(m, y) + d', x, r, v + {KeyOf(y)});
        assert Succ(m, y) + d' + [x] + r == Succ(m, y) + (d' + [x] + r);
      }
    }
  }

  /** What was expanded at earlier positions no longer matters. */
  lemma {:induction false} Forget(m: Machine, mode: Mode, s: seq<Item>, p: nat, v: set<Key>, w: set<Key>)
    requires Closed(m) && AllValid(m, s) && From(s, p)
    requires forall k: Key :: k.1 >= p ==> (k in v <==> k in w)
    ensures Dfs(m, mode, s, v) == Dfs(m, mode, s, w)
    decreases |States(m) - v|, |s|
  {
    hide Dfs, Accepts, Succ, Closed;
    if s != [] {
      var x, rest := s[0], s[1..];
      assert s == [x] + rest;
      Unfold(m, mode, x, rest, v);
      Unfold(m, mode, x, rest, w);
      if KeyOf(x) in v {
        Forget(m, mode, rest, p, v, w);
      } else if !Accepts(m, mode, x) {
        SuccValid(m, x);
        FewerLeft(m, v, x);
        Forget(m, mode, Succ(m, x) + rest, p, v + {KeyOf(x)}, w + {KeyOf(x)});
      }
    } else {
      DfsNothing(m, mode, v);
      DfsNothing(m, mode, w);
    }
  }

  // ----- what the search finds -----

  /** A run that ends in an accepting item. */
  ghost predicate Winning(m: Machine, mode: Mode, p: seq<Item>) {
    PathIn(m, 0, |m.prog|, p) && Valid(m, Last(p)) && Accepts(m, mode, Last(p))
  }

  /** A result is the capture slots at the end of a run from one of the items, at a state not
      expanded before. */
  lemma {:induction false} DfsSound(m: Machine, mode: Mode, s: seq<Item>, v: set<Key>) returns (k: nat, p: seq<Item>)
    requires Closed(m) && AllValid(m, s) && Dfs(m, mode, s, v).Some?
    ensures k < |s| && Winning(m, mode, p) && p[0] == s[k]
    ensures Dfs(m, mode, s, v) == Some(Last(p).saves) && KeyOf(Last(p)) !in v
    decreases |States(m) - v|, |s|
  {
    hide Dfs, Accepts, Succ, Closed;
    DfsNothing(m, mode, v);
    var x, rest := s[0], s[1..];
    assert s == [x] + rest;
    Unfold(m, mode, x, rest, v);
    if KeyOf(x) in v {
      k, p := DfsSound(m, mode, rest, v);
      k := k + 1;
    } else if Accepts(m, mode, x) {
      k, p := 0, [x];
    } else {
      SuccValid(m, x);
      FewerLeft(m, v, x);
      var n := |Succ(m, x)|;
      k, p := DfsSound(m, mode, Succ(m, x) + rest, v + {KeyOf(x)});
      if k < n {
        OneStep(m, 0, |m.prog|, x, p[0]);
        JoinPath(m, 0, |m.prog|, [x, p[0]], p);
        k, p := 0, Join([x, p[0]], p);
      } else {
        k := k - n + 1;
      }
    }
  }

  /** What a fruitless search has expanded in the end. */
  ghost function Explored(m: Machine, mode: Mode, stack: seq<Item>, v: set<Key>): set<Key>
    requires Closed(m) && AllValid(m, stack) && Dfs(m, mode, stack, v).None?
    decreases |States(m) - v|, |stack|
  {
    if stack == [] then v
    else
      var x, rest := stack[0], stack[1..];
      if KeyOf(x) in v then Explored(m, mode, rest, v)
      else
        SuccValid(m, x);
        FewerLeft(m, v, x);
        Explored(m, mode, Succ(m, x) + rest, v + {KeyOf(x)})
  }

  /** Whatever a fruitless search has expanded lies on a run from one of the items. */
  lemma {:induction false} ExploredReached(m: Machine, mode: Mode, s: seq<Item>, v: set<Key>, key: Key)
      returns (k: nat, p: seq<Item>)
    requires Closed(m) && AllValid(m, s) && Dfs(m, mode, s, v).None?
    requires key in Explored(m, mode, s, v) && key !in v
    ensures k < |s| && PathIn(m, 0, |m.prog|, p) && p[0] == s[k] && KeyOf(Last(p)) == key
    decreases |States(m) - v|, |s|
  {
    hide Dfs, Accepts, Succ, Closed;
    var x, rest := s[0], s[1..];
    assert s == [x] + rest;
    Unfold(m, mode, x, rest, v);
    if KeyOf(x) in v {
      k, p := ExploredReached(m, mode, rest, v, key);
      k := k + 1;
    } else if key == KeyOf(x) {
      k, p := 0, [x];
    } else {
      SuccValid(m, x);
      FewerLeft(m, v, x);
      var n := |Succ(m, x)|;
      k, p := ExploredReached(m, mode, Succ(m, x) + rest, v + {KeyOf(x)}, key);
      if k < n {
        OneStep(m, 0, |m.prog|, x, p[0]);
        JoinPath(m, 0, |m.prog|, [x, p[0]], p);
        k, p := 0, Join([x, p[0]], p);
      } else {
        k := k - n + 1;
      }
    }
  }

  /** Two stacks one after the other. */
  lemma {:induction false} DfsAppend(m: Machine, mode: Mode, s: seq<Item>, t: seq<Item>, v: set<Key>)
    requires Closed(m) && AllValid(m, s) && AllValid(m, t)
    ensures Dfs(m, mode, s + t, v) ==
            if Dfs(m, mode, s, v).Some? then Dfs(m, mode, s, v)
            else Dfs(m, mode, t, Explored(m, mode, s, v))
    decreases |States(m) - v|, |s|
  {
    hide Dfs, Accepts, Succ, Closed;
    if s == [] {
      assert s + t == t;
      DfsNothing(m, mode, v);
    } else {
      var x, rest := s[0], s[1..];
      assert s == [x] + rest && s + t == [x] + (rest + t);
      Unfold(m, mode, x, rest, v);
      Unfold(m, mode, x, rest + t, v);
      if KeyOf(x) in v {
        DfsAppend(m, mode, rest, t, v);
      } else if !Accepts(m, mode, x) {
        SuccValid(m, x);
        FewerLeft(m, v, x);
        DfsAppend(m, mode, Succ(m, x) + rest, t, v + {KeyOf(x)});
        assert Succ(m, x) + rest + t == Succ(m, x) + (rest + t);
      }
    }
  }

  // ----- what the search misses: nothing -----

  /** The keys one step away. They do not depend on the capture slots. */
  ghost function NextKeys(m: Machine, k: Key): set<Key>
    requires k.0 < |m.prog|
  {
    set y | y in Succ(m, Item(k.0, k.1, [])) :: KeyOf(y)
  }

  ghost function Keys(s: seq<Item>): set<Key> {
    set x | x in s :: KeyOf(x)
  }

  lemma NextKeysOf(m: Machine, x: Item)
    requires x.pc < |m.prog|
    ensures Keys(Succ(m, x)) == NextKeys(m, KeyOf(x))
  {
    var s, t := Succ(m, x), Succ(m, Item(x.pc, x.pos, []));
    SameKeys(m, x, Item(x.pc, x.pos, []));
    hide Succ;
    assert forall k :: 0 <= k < |s| ==> s[k] in s && t[k] in t;
  }

  lemma SameKeys(m: Machine, x: Item, x': Item)
    requires x.pc < |m.prog| && KeyOf(x) == KeyOf(x')
    ensures |Succ(m, x)| == |Succ(m, x')|
    ensures forall k :: 0 <= k < |Succ(m, x)| ==> KeyOf(Succ(m, x)[k]) == KeyOf(Succ(m, x')[k])
  {
  }

  /** Everything in `v` has its successors in `v` or among `pending`, and is not a goal. */
  ghost predicate Dead(m: Machine, goal: set<Key>, v: set<Key>, pending: set<Key>) {
    && v !! goal
    && forall k :: k in v ==> k.0 < |m.prog| && NextKeys(m, k) <= v + pending
  }

  /** A fruitless search leaves a set that contains the stack, is closed, and has no goal. */
  lemma {:induction false} DfsComplete(m: Machine, mode: Mode, s: seq<Item>, v: set<Key>, goal: set<Key>)
    requires Closed(m) && AllValid(m, s) && Dfs(m, mode, s, v).None?
    requires Dead(m, goal, v, Keys(s))
    requires GoalsAccept(m, mode, goal, s)
    ensures var u := Explored(m, mode, s, v);
      Keys(s) <= u && v <= u && Dead(m, goal, u, {})
    decreases |States(m) - v|, |s|
  {
    hide Dfs, Accepts, Succ, Closed, Keys, NextKeys, Dead, Guarded;
    if s == [] {
      assert Keys(s) == {} by { KeysOfNothing(); }
    } else {
      var x, rest := s[0], s[1..];
      assert s == [x] + rest;
      Unfold(m, mode, x, rest, v);
      if KeyOf(x) in v {
        DeadSkip(m, goal, v, x, rest);
        DfsComplete(m, mode, rest, v, goal);
      } else {
        GuardedHere(m, mode, goal, x);
        SuccValid(m, x);
        FewerLeft(m, v, x);
        DeadExpand(m, goal, v, x, rest);
        GuardedNext(m, mode, goal, s);
        DfsComplete(m, mode, Succ(m, x) + rest, v + {KeyOf(x)}, goal);
      }
    }
  }

  lemma KeysOfNothing()
    ensures Keys([]) == {}
  {
  }

  lemma DeadSkip(m: Machine, goal: set<Key>, v: set<Key>, x: Item, rest: seq<Item>)
    requires Dead(m, goal, v, Keys([x] + rest)) && KeyOf(x) in v
    ensures Dead(m, goal, v, Keys(rest)) && Keys([x] + rest) <= v + Keys(rest)
  {
    assert Keys([x] + rest) == {KeyOf(x)} + Keys(rest);
  }

  lemma DeadExpand(m: Machine, goal: set<Key>, v: set<Key>, x: Item, rest: seq<Item>)
    requires x.pc < |m.prog| && Dead(m, goal, v, Keys([x] + rest)) && KeyOf(x) !in goal
    ensures Dead(m, goal, v + {KeyOf(x)}, Keys(Succ(m, x) + rest))
    ensures Keys([x] + rest) <= v + {KeyOf(x)} + Keys(Succ(m, x) + rest)
  {
    NextKeysOf(m, x);
    assert Keys([x] + rest) == {KeyOf(x)} + Keys(rest);
    assert Keys(Succ(m, x) + rest) == Keys(Succ(m, x)) + Keys(rest);
  }

  lemma GuardedHere(m: Machine, mode: Mode, goal: set<Key>, x: Item)
    requires Valid(m, x) && Guarded(m, mode, goal, x) && !Accepts(m, mode, x)
    ensures KeyOf(x) !in goal
  {
    assert PathIn(m, 0, |m.prog|, [x]) && Last([x]) == x;
  }

  /** Along every run from `x`, each goal passed is accepted: capture slots do not spoil it. */
  ghost predicate Guarded(m: Machine, mode: Mode, goal: set<Key>, x: Item) {
    forall p: seq<Item> ::
      PathIn(m, 0, |m.prog|, p) && p[0] == x && KeyOf(Last(p)) in goal
      ==> Valid(m, Last(p)) && Accepts(m, mode, Last(p))
  }

  ghost predicate GoalsAccept(m: Machine, mode: Mode, goal: set<Key>, s: seq<Item>) {
    forall k :: 0 <= k < |s| ==> Guarded(m, mode, goal, s[k])
  }

  lemma GuardedStep(m: Machine, mode: Mode, goal: set<Key>, x: Item, y: Item)
    requires Guarded(m, mode, goal, x) && x.pc < |m.prog| && y in Succ(m, x)
    ensures Guarded(m, mode, goal, y)
  {
    forall p: seq<Item> | PathIn(m, 0, |m.prog|, p) && p[0] == y && KeyOf(Last(p)) in goal
      ensures Valid(m, Last(p)) && Accepts(m, mode, Last(p))
    {
      OneStep(m, 0, |m.prog|, x, y);
      if |p| == 1 {
        assert Last([x, y]) == Last(p);
      } else {
        assert p[0].pc < |m.prog|;
        JoinPath(m, 0, |m.prog|, [x, y], p);
      }
    }
  }

  lemma GuardedNext(m: Machine, mode: Mode, goal: set<Key>, s: seq<Item>)
    requires s != [] && s[0].pc < |m.prog| && GoalsAccept(m, mode, goal, s)
    ensures GoalsAccept(m, mode, goal, Succ(m, s[0]) + s[1..])
  {
    hide Guarded;
    var s' := Succ(m, s[0]) + s[1..];
    forall k | 0 <= k < |s'| ensures Guarded(m, mode, goal, s'[k]) {
      assert Guarded(m, mode, goal, s[0]);
      if k < |Succ(m, s[0])| {
        GuardedStep(m, mode, goal, s[0], s'[k]);
      } else {
        assert s'[k] == s[k - |Succ(m, s[0])| + 1];
      }
    }
  }

  /** A run that starts in a closed set without goals never meets a goal. */
  lemma {:induction false} StaysDead(m: Machine, goal: set<Key>, u: set<Key>, p: seq<Item>)
    requires Dead(m, goal, u, {}) && PathIn(m, 0, |m.prog|, p) && KeyOf(p[0]) in u
    ensures KeyOf(Last(p)) in u && KeyOf(Last(p)) !in goal
    decreases |p|
  {
    if |p| > 1 {
      assert StepAt(m, p, 0);
      NextKeysOf(m, p[0]);
      assert KeyOf(p[1]) in Keys(Succ(m, p[0]));
      TailPath(m, 0, |m.prog|, p, 1);
      StaysDead(m, goal, u, p[1..]);
    }
  }
}
