/** The Pike VM: a list of threads per text position, kept in priority order, advanced in
    lock-step. It returns exactly what the backtracking search returns. */
module RegexVm {
  import opened Bytes
  import opened RegexSyntax
  import opened RegexMachine
  import opened RegexSearch

  datatype Thread = Thread(pc: nat, saves: Slots)

  function ItemAt(t: Thread, pos: nat): Item { Item(t.pc, pos, t.saves) }

  // ----- the closure of a position, as a function -----

  datatype Closing = Closing(leaves: seq<Thread>, seen: set<nat>)

  predicate InProgram(m: Machine, pc: nat) { pc < |m.prog| }

  function Pcs(m: Machine): set<nat> {
    set pc: nat | 0 <= pc < |m.prog| && InProgram(m, pc)
  }

  /** All of `w` is at position `pos`, inside the program. */
  ghost predicate Here(m: Machine, w: seq<Item>, pos: nat) {
    pos <= |m.subject.text| && AllValid(m, w) && forall k :: 0 <= k < |w| ==> w[k].pos == pos
  }

  lemma FewerPcs(m: Machine, seen: set<nat>, pc: nat)
    requires pc < |m.prog| && pc !in seen
    ensures |Pcs(m) - (seen + {pc})| < |Pcs(m) - seen|
  {
    assert InProgram(m, pc);
    assert pc in Pcs(m);
    assert Pcs(m) - (seen + {pc}) == (Pcs(m) - seen) - {pc};
  }

  lemma SuccHere(m: Machine, x: Item, rest: seq<Item>, pos: nat)
    requires Closed(m) && Here(m, [x] + rest, pos) && x.pc < |m.prog| && !IsLeaf(m.prog[x.pc])
    ensures Here(m, Succ(m, x) + rest, pos) && Here(m, rest, pos)
  {
    var w := [x] + rest;
    assert w[0] == x;
    SuccValid(m, x);
    assert forall k :: 0 <= k < |rest| ==> rest[k] == w[k + 1];
  }

  /** Follow everything but consuming instructions and Match from the items of `w`, first item
      first, each pc once. The threads reached come in order of preference. */
  ghost function Closure(m: Machine, w: seq<Item>, pos: nat, seen: set<nat>): Closing
    requires Closed(m) && Here(m, w, pos)
    decreases |Pcs(m) - seen|, |w|
  {
    if w == [] then Closing([], seen)
    else
      var x, rest := w[0], w[1..];
      assert w == [x] + rest;
      if x.pc in seen then Closure(m, rest, pos, seen)
      else
        FewerPcs(m, seen, x.pc);
        if IsLeaf(m.prog[x.pc]) then
          var c := Closure(m, rest, pos, seen + {x.pc});
          c.(leaves := [Thread(x.pc, x.saves)] + c.leaves)
        else
          SuccHere(m, x, rest, pos);
          Closure(m, Succ(m, x) + rest, pos, seen + {x.pc})
  }

  lemma ClosureStep(m: Machine, x: Item, rest: seq<Item>, pos: nat, seen: set<nat>)
    requires Closed(m) && Here(m, [x] + rest, pos) && ([x] + rest)[0] == x
    ensures Here(m, rest, pos)
    ensures x.pc !in seen && !IsLeaf(m.prog[x.pc]) ==> Here(m, Succ(m, x) + rest, pos)
    ensures Closure(m, [x] + rest, pos, seen) ==
            if x.pc in seen then Closure(m, rest, pos, seen)
            else if IsLeaf(m.prog[x.pc]) then
              var c := Closure(m, rest, pos, seen + {x.pc});
              c.(leaves := [Thread(x.pc, x.saves)] + c.leaves)
            else Closure(m, Succ(m, x) + rest, pos, seen + {x.pc})
  {
    var w := [x] + rest;
    assert w[0] == x && w[1..] == rest;
    assert forall k :: 0 <= k < |rest| ==> rest[k] == w[k + 1];
    if !IsLeaf(m.prog[x.pc]) {
      SuccHere(m, x, rest, pos);
    }
  }

  /** Every thread is a leaf of the program, no pc twice, and the seen set only grows: so a
      position never holds more threads than the program has instructions. */
  lemma {:induction false} ClosureBound(m: Machine, w: seq<Item>, pos: nat, seen: set<nat>)
    requires Closed(m) && Here(m, w, pos) && seen <= Pcs(m)
    ensures var c := Closure(m, w, pos, seen);
      && seen <= c.seen <= Pcs(m) && |c.leaves| + |seen| <= |c.seen|
      && forall k :: 0 <= k < |c.leaves| ==> c.leaves[k].pc < |m.prog| && IsLeaf(m.prog[c.leaves[k].pc])
    decreases |Pcs(m) - seen|, |w|
  {
    hide Closure, Succ, Closed;
    if w == [] {
      ClosureNothing(m, pos, seen);
    } else {
      var x, rest := w[0], w[1..];
      assert w == [x] + rest;
      ClosureStep(m, x, rest, pos, seen);
      if x.pc in seen {
        ClosureBound(m, rest, pos, seen);
      } else {
        FewerPcs(m, seen, x.pc);
        assert seen + {x.pc} <= Pcs(m);
        if IsLeaf(m.prog[x.pc]) {
          ClosureBound(m, rest, pos, seen + {x.pc});
        } else {
          ClosureBound(m, Succ(m, x) + rest, pos, seen + {x.pc});
        }
      }
    }
  }

  lemma ClosureNothing(m: Machine, pos: nat, seen: set<nat>)
    requires Closed(m) && pos <= |m.subject.text|
    ensures Closure(m, [], pos, seen) == Closing([], seen)
  {
  }

  /** Adding items at the end adds threads at the end. */
  lemma {:induction false} ClosureAppend(m: Machine, w: seq<Item>, u: seq<Item>, pos: nat, seen: set<nat>)
    requires Closed(m) && Here(m, w, pos) && Here(m, u, pos)
    ensures Here(m, w + u, pos)
    ensures var c := Closure(m, w, pos, seen);
      var d := Closure(m, u, pos, c.seen);
      Closure(m, w + u, pos, seen) == Closing(c.leaves + d.leaves, d.seen)
    decreases |Pcs(m) - seen|, |w|
  {
    hide Closure, Succ, Closed;
    if w == [] {
      ClosureNothing(m, pos, seen);
      assert w + u == u;
      var d := Closure(m, u, pos, seen);
      assert [] + d.leaves == d.leaves;
    } else {
      var x, rest := w[0], w[1..];
      assert w == [x] + rest && w + u == [x] + (rest + u);
      HereAppend(m, w, u, pos);
      ClosureStep(m, x, rest, pos, seen);
      ClosureStep(m, x, rest + u, pos, seen);
      if x.pc in seen {
        ClosureAppend(m, rest, u, pos, seen);
      } else {
        FewerPcs(m, seen, x.pc);
        if IsLeaf(m.prog[x.pc]) {
          ClosureAppend(m, rest, u, pos, seen + {x.pc});
          var c := Closure(m, rest, pos, seen + {x.pc});
          var d := Closure(m, u, pos, c.seen);
          assert [Thread(x.pc, x.saves)] + (c.leaves + d.leaves) == [Thread(x.pc, x.saves)] + c.leaves + d.leaves;
        } else {
          ClosureAppend(m, Succ(m, x) + rest, u, pos, seen + {x.pc});
          assert Succ(m, x) + rest + u == Succ(m, x) + (rest + u);
        }
      }
    }
  }

  lemma HereAppend(m: Machine, w: seq<Item>, u: seq<Item>, pos: nat)
    requires Here(m, w, pos) && Here(m, u, pos)
    ensures Here(m, w + u, pos)
  {
  }

  // ----- one position, against the search -----

  /** What the search makes of threads `l` at `pos`, given that `d` (at the next position) and
      `t` (later starts) are already waiting in front of and behind them. */
  ghost function Outcome(m: Machine, mode: Mode, d: seq<Item>, l: seq<Thread>, pos: nat, t: seq<Item>): Option<Slots>
    requires Closed(m) && pos <= |m.subject.text| && AllValid(m, d) && AllValid(m, t) && Live(m, l)
    decreases |l|
  {
    if l == [] then Dfs(m, mode, d + t, {})
    else
      var x := ItemAt(l[0], pos);
      if Accepts(m, mode, x) then Prefer(Dfs(m, mode, d, {}), Some(x.saves))
      else
        SuccValid(m, x);
        Outcome(m, mode, d + Succ(m, x), l[1..], pos, t)
  }

  ghost predicate Live(m: Machine, l: seq<Thread>) {
    forall k :: 0 <= k < |l| ==> l[k].pc < |m.prog| && IsLeaf(m.prog[l[k].pc])
  }

  lemma OutcomeStep(m: Machine, mode: Mode, d: seq<Item>, x: Thread, l: seq<Thread>, pos: nat, t: seq<Item>)
    requires Closed(m) && pos <= |m.subject.text| && AllValid(m, d) && AllValid(m, t) && Live(m, [x] + l)
    ensures Live(m, l) && Valid(m, ItemAt(x, pos)) && AllValid(m, d + Succ(m, ItemAt(x, pos)))
    ensures Outcome(m, mode, d, [x] + l, pos, t) ==
            if Accepts(m, mode, ItemAt(x, pos)) then Prefer(Dfs(m, mode, d, {}), Some(x.saves))
            else Outcome(m, mode, d + Succ(m, ItemAt(x, pos)), l, pos, t)
  {
    var w := [x] + l;
    assert w[0] == x && w[1..] == l;
    assert forall k :: 0 <= k < |l| ==> l[k] == w[k + 1];
    SuccValid(m, ItemAt(x, pos));
  }

  /** `v` holds nothing beyond position `pos`, and at `pos` exactly the pcs of `seen`. */
  ghost predicate UpTo(v: set<Key>, pos: nat, seen: set<nat>) {
    forall k: Key :: k in v ==> k.1 < pos || (k.1 == pos && k.0 in seen)
  }

  ghost predicate Marked(v: set<Key>, pos: nat, seen: set<nat>) {
    forall pc :: pc in seen ==> (pc, pos) in v
  }

  lemma Regroup4<T>(a: seq<T>, b: seq<T>, c: seq<T>, d: seq<T>)
    ensures a + (b + c) + d == a + b + (c + d)
  {
  }

  /** The search, standing at `w`, ends like the search that first closes the whole position. */
  lemma {:induction false} LevelByLevel(m: Machine, mode: Mode, d: seq<Item>, w: seq<Item>, t: seq<Item>, pos: nat,
                                        v: set<Key>, seen: set<nat>)
    requires Closed(m) && Here(m, w, pos) && seen <= Pcs(m)
    requires AllValid(m, d) && From(d, pos + 1) && AllValid(m, t) && From(t, pos + 1)
    requires UpTo(v, pos, seen) && Marked(v, pos, seen)
    ensures Live(m, Closure(m, w, pos, seen).leaves)
    ensures Dfs(m, mode, d + w + t, v) == Outcome(m, mode, d, Closure(m, w, pos, seen).leaves, pos, t)
    decreases |Pcs(m) - seen|, |w|
  {
    hide Closure, Succ, Closed, Dfs, Accepts, Outcome;
    ClosureBound(m, w, pos, seen);
    if w == [] {
      ClosureNothing(m, pos, seen);
      assert d + w + t == d + t;
      Forget(m, mode, d + t, pos + 1, v, {});
      OutcomeNothing(m, mode, d, pos, t);
    } else {
      var x, rest := w[0], w[1..];
      assert w == [x] + rest;
      ClosureStep(m, x, rest, pos, seen);
      Regroup4(d, [x], rest, t);
      if x.pc in seen {
        MidSkip(m, mode, d, x, rest + t, v);
        LevelByLevel(m, mode, d, rest, t, pos, v, seen);
        Assoc(d, rest, t);
      } else {
        FewerPcs(m, seen, x.pc);
        var v', seen' := v + {KeyOf(x)}, seen + {x.pc};
        if IsLeaf(m.prog[x.pc]) {
          ClosureBound(m, rest, pos, seen');
          var c := Closure(m, rest, pos, seen');
          OutcomeStep(m, mode, d, Thread(x.pc, x.saves), c.leaves, pos, t);
          if Accepts(m, mode, x) {
            MidAccept(m, mode, d, x, rest + t, v);
            Forget(m, mode, d, pos + 1, v, {});
          } else {
            MidExpand(m, mode, d, x, rest + t, v);
            SuccValid(m, x);
            LevelByLevel(m, mode, d + Succ(m, x), rest, t, pos, v', seen');
            Assoc(d + Succ(m, x), rest, t);
          }
        } else {
          NotAccepting(m, mode, x);
          MidExpand(m, mode, d, x, rest + t, v);
          LevelByLevel(m, mode, d, Succ(m, x) + rest, t, pos, v', seen');
          Regroup4(d, Succ(m, x), rest, t);
        }
      }
    }
  }

  lemma NotAccepting(m: Machine, mode: Mode, x: Item)
    requires Valid(m, x) && !IsLeaf(m.prog[x.pc])
    ensures !Accepts(m, mode, x)
  {
  }

  lemma OutcomeNothing(m: Machine, mode: Mode, d: seq<Item>, pos: nat, t: seq<Item>)
    requires Closed(m) && pos <= |m.subject.text| && AllValid(m, d) && AllValid(m, t)
    ensures Outcome(m, mode, d, [], pos, t) == Dfs(m, mode, d + t, {})
  {
  }

  // ----- the machine -----

  /** Which pcs were added at this position; cleared by walking the marked entries. */
  class SeenSet {
    const mark: array<bool>
    var marked: seq<nat>

    ghost predicate Ok(n: nat)
      reads this, mark
    {
      && mark.Length == n
      && (forall k :: 0 <= k < |marked| ==> marked[k] < n)
      && (forall pc :: 0 <= pc < n ==> (mark[pc] <==> pc in marked))
    }

    ghost function Pcs(): set<nat>
      reads this
    {
      set pc | pc in marked
    }

    constructor (n: nat)
      ensures Ok(n) && Pcs() == {} && fresh(mark)
    {
      mark := new bool[n](_ => false);
      marked := [];
    }

    method Clear()
      requires Ok(mark.Length)
      modifies this, mark
      ensures Ok(mark.Length) && Pcs() == {}
    {
      var i := 0;
      while i < |marked|
        invariant i <= |marked| && marked == old(marked)
        invariant forall pc :: 0 <= pc < mark.Length && mark[pc] ==> pc in marked[i..]
      {
        assert marked[i..] == [marked[i]] + marked[i + 1..];
        mark[marked[i]] := false;
        i := i + 1;
      }
      marked := [];
    }

    /** True if `pc` was present; otherwise records it. */
    method TestAndSet(pc: nat, ghost n: nat) returns (present: bool)
      requires Ok(n) && pc < n
      modifies this, mark
      ensures Ok(n)
      ensures present == (pc in old(Pcs())) && Pcs() == old(Pcs()) + {pc}
    {
      if mark[pc] {
        present := true;
      } else {
        mark[pc] := true;
        marked := marked + [pc];
        present := false;
      }
    }
  }

  class ThreadList {
    var threads: seq<Thread>

    constructor ()
      ensures threads == []
    {
      threads := [];
    }
  }

  /** The stack of `AddThread`, top first, as items. */
  ghost function Pending(stack: seq<Thread>, pos: nat): seq<Item> {
    if stack == [] then []
    else
      var top := |stack| - 1;
      [ItemAt(stack[top], pos)] + Pending(stack[..top], pos)
  }

  lemma PendingPush(stack: seq<Thread>, t: Thread, pos: nat)
    ensures Pending(stack + [t], pos) == [ItemAt(t, pos)] + Pending(stack, pos)
  {
    assert (stack + [t])[..|stack|] == stack;
  }

  lemma Regroup(a: seq<Thread>, t: Thread, b: seq<Thread>)
    ensures a + ([t] + b) == a + [t] + b
  {
  }

  lemma PendingNone(pos: nat)
    ensures Pending([], pos) == []
  {
  }

  lemma PendingOne(t: Thread, pos: nat)
    ensures Pending([t], pos) == [ItemAt(t, pos)]
  {
    assert [] + [t] == [t];
    PendingPush([], t, pos);
  }

  /** Pushes the successors of a thread at a jump, split, save or anchor, the preferred one on
      top: of `Split(a, b)`, b goes first so that a is popped first. */
  method Follow(m: Machine, stack: seq<Thread>, pc: nat, saves: Slots, pos: nat) returns (next: seq<Thread>)
    requires pc < |m.prog| && !IsLeaf(m.prog[pc])
    ensures Pending(next, pos) == Succ(m, Item(pc, pos, saves)) + Pending(stack, pos)
    ensures |next| <= |stack| + 2
  {
    next := stack;
    match m.prog[pc] {
      case IJmp(target) =>
        PendingPush(stack, Thread(target, saves), pos);
        next := next + [Thread(target, saves)];
      case ISplit(a, b) =>
        PendingPush(stack, Thread(b, saves), pos);
        next := next + [Thread(b, saves)];
        PendingPush(next, Thread(a, saves), pos);
        next := next + [Thread(a, saves)];
      case ISave(k) =>
        var s2 := saves;
        if k < |s2| {
          s2 := s2[k := Some(pos)];
        }
        PendingPush(stack, Thread(pc + 1, s2), pos);
        next := next + [Thread(pc + 1, s2)];
      case IStart =>
        if pos == 0 {
          PendingPush(stack, Thread(pc + 1, saves), pos);
          next := next + [Thread(pc + 1, saves)];
        }
      case IEnd =>
        if pos == |m.subject.text| {
          PendingPush(stack, Thread(pc + 1, saves), pos);
          next := next + [Thread(pc + 1, saves)];
        }
      case _ =>
    }
  }

  /** Appends to `list` the closure of one thread, skipping and recording pcs in `seen`. */
  method AddThread(m: Machine, list: ThreadList, seen: SeenSet, pc0: nat, saves0: Slots, pos: nat)
    requires Closed(m) && pc0 < |m.prog| && pos <= |m.subject.text|
    requires seen.Ok(|m.prog|)
    modifies list, seen, seen.mark
    ensures seen.Ok(|m.prog|)
    ensures var c := Closure(m, [Item(pc0, pos, saves0)], pos, old(seen.Pcs()));
      list.threads == old(list.threads) + c.leaves && seen.Pcs() == c.seen
  {
    hide Closure, Pending, Closed, Succ, SeenSet.Pcs, SeenSet.Ok;
    var stack := [Thread(pc0, saves0)];
    ghost var seen0 := seen.Pcs();
    ghost var goal := Closure(m, [Item(pc0, pos, saves0)], pos, seen0);
    ghost var base, added: seq<Thread> := list.threads, [];
    PendingOne(stack[0], pos);
    assert added + goal.leaves == goal.leaves;
    while stack != []
      invariant seen.Ok(|m.prog|) && Here(m, Pending(stack, pos), pos)
      invariant list.threads == base + added
      invariant var c := Closure(m, Pending(stack, pos), pos, seen.Pcs());
        goal == Closing(added + c.leaves, c.seen)
      invariant seen0 <= seen.Pcs() && |stack| + |seen0| <= 1 + |seen.Pcs()|
      decreases |Pcs(m) - seen.Pcs()|, |stack|
    {
      var top := |stack| - 1;
      var t := stack[top];
      var pc, saves := t.pc, t.saves;
      ghost var x, rest := ItemAt(t, pos), Pending(stack[..top], pos);
      PendingPush(stack[..top], t, pos);
      assert stack[..top] + [t] == stack;
      ClosureStep(m, x, rest, pos, seen.Pcs());
      assert ([x] + rest)[0] == x;
      stack := stack[..top];
      ghost var before := seen.Pcs();
      ghost var todo := Closure(m, [x] + rest, pos, before);
      assert goal == Closing(added + todo.leaves, todo.seen);
      var present := seen.TestAndSet(pc, |m.prog|);
      assert list.threads == base + added;
      if present {
        assert seen.Pcs() == before;
        assert Pending(stack, pos) == rest;
        continue;
      }
      FewerPcs(m, before, pc);
      ghost var now := before + {pc};
      assert seen.Pcs() == now && |now| == |before| + 1;
      if IsLeaf(m.prog[pc]) {
        // Consuming instructions and Match become live threads.
        list.threads := list.threads + [Thread(pc, saves)];
        assert list.threads == base + (added + [Thread(pc, saves)]) && seen.Ok(|m.prog|) && seen.Pcs() == now;
        ghost var c := Closure(m, rest, pos, now);
        Regroup(added, Thread(pc, saves), c.leaves);
        added := added + [Thread(pc, saves)];
        assert Pending(stack, pos) == rest && goal == Closing(added + c.leaves, c.seen);
      } else {
        stack := Follow(m, stack, pc, saves, pos);
        assert Pending(stack, pos) == Succ(m, x) + rest;
      }
    }
    PendingNone(pos);
    ClosureNothing(m, pos, seen.Pcs());
    assert added + [] == added;
  }

  // ----- the main loop -----

  /** One start item at each position from `q` to `to`. */
  function Seeds(nslots: nat, q: nat, to: nat): seq<Item>
    decreases if q <= to then to - q + 1 else 0
  {
    if q > to then [] else [Item(0, q, Blank(nslots))] + Seeds(nslots, q + 1, to)
  }

  lemma {:induction false} SeedsValid(m: Machine, nslots: nat, q: nat, to: nat)
    requires Closed(m) && to <= |m.subject.text|
    ensures AllValid(m, Seeds(nslots, q, to)) && From(Seeds(nslots, q, to), q)
    decreases if q <= to then to - q + 1 else 0
  {
    if q <= to {
      SeedsValid(m, nslots, q + 1, to);
      var rest := Seeds(nslots, q + 1, to);
      var s := Seeds(nslots, q, to);
      assert s == [Item(0, q, Blank(nslots))] + rest;
      assert forall k :: 0 < k < |s| ==> s[k] == rest[k - 1];
    }
  }

  /** The start items the machine has yet to add when it reaches `pos`. */
  function SeedsLeft(nslots: nat, matched: bool, pos: nat, to: nat): seq<Item> {
    if matched then [] else Seeds(nslots, pos, to)
  }

  /** The last start position: an anchored match has only one. */
  function LastStart(m: Machine, from: nat, anchored: bool): nat {
    if anchored then from else |m.subject.text|
  }

  /** The search for a match at or after `from`. */
  ghost function Reference(m: Machine, nslots: nat, mode: Mode, from: nat, to: nat): Option<Slots>
    requires Closed(m) && to <= |m.subject.text|
  {
    SeedsValid(m, nslots, from, to);
    Dfs(m, mode, Seeds(nslots, from, to), {})
  }

  /** The state of the machine at the head of its loop, against the search's answer: the
      answer is what the search finds from the items `a` behind `clist`, then from the starts
      to come, and failing that what has been recorded. */
  ghost predicate OnTrack(m: Machine, mode: Mode, nslots: nat, to: nat, answer: Option<Slots>,
                          a: seq<Item>, pos: nat, clist: seq<Thread>, seen: set<nat>, matched: Option<Slots>)
    requires Closed(m) && to <= |m.subject.text|
  {
    && Here(m, a, pos) && Closure(m, a, pos, {}) == Closing(clist, seen)
    && (SeedsValid(m, nslots, pos, to);
        AllValid(m, a + SeedsLeft(nslots, matched.Some?, pos, to)) &&
        answer == Prefer(Dfs(m, mode, a + SeedsLeft(nslots, matched.Some?, pos, to), {}), matched))
  }

  /** The same, in the middle of a position: threads before `l` have been advanced to `d`. */
  ghost predicate MidWay(m: Machine, mode: Mode, nslots: nat, to: nat, answer: Option<Slots>,
                         d: seq<Item>, l: seq<Thread>, pos: nat, matched: Option<Slots>)
    requires Closed(m) && to <= |m.subject.text|
  {
    && pos <= |m.subject.text| && Live(m, l) && AllValid(m, d)
    && (SeedsValid(m, nslots, pos + 1, to);
        answer == Prefer(Outcome(m, mode, d, l, pos, SeedsLeft(nslots, matched.Some?, pos + 1, to)), matched))
  }

  /** The starts left are the one at this position and those after it. */
  lemma SeedNow(a: seq<Item>, nslots: nat, found: bool, pos: nat, to: nat)
    ensures var t := SeedsLeft(nslots, found, pos + 1, to);
      a + SeedsLeft(nslots, found, pos, to)
      == [] + (if !found && pos <= to then a + [Item(0, pos, Blank(nslots))] else a) + t
  {
    var t := SeedsLeft(nslots, found, pos + 1, to);
    if !found && pos <= to {
      Assoc(a, [Item(0, pos, Blank(nslots))], t);
    } else {
      assert t == SeedsLeft(nslots, found, pos, to) == [];
    }
  }

  /** Adding the start item of this position and closing it. */
  lemma Begin(m: Machine, mode: Mode, nslots: nat, to: nat, answer: Option<Slots>, a: seq<Item>, pos: nat,
              clist: seq<Thread>, seen: set<nat>, matched: Option<Slots>, clist': seq<Thread>)
    requires Closed(m) && to <= |m.subject.text|
    requires OnTrack(m, mode, nslots, to, answer, a, pos, clist, seen, matched)
    requires if matched.None? && pos <= to
             then clist' == clist + Closure(m, [Item(0, pos, Blank(nslots))], pos, seen).leaves
             else clist' == clist
    ensures MidWay(m, mode, nslots, to, answer, [], clist', pos, matched)
  {
    hide Dfs, Outcome, Closure;
    SeedsValid(m, nslots, pos, to);
    SeedsValid(m, nslots, pos + 1, to);
    var seed := [Item(0, pos, Blank(nslots))];
    var t := SeedsLeft(nslots, matched.Some?, pos + 1, to);
    var w := if matched.None? && pos <= to then a + seed else a;
    assert a + SeedsLeft(nslots, matched.Some?, pos, to) == [] + w + t by {
      SeedNow(a, nslots, matched.Some?, pos, to);
    }
    if matched.None? && pos <= to {
      ClosureAppend(m, a, seed, pos, {});
    }
    LevelByLevel(m, mode, [], w, t, pos, {}, {});
  }

  /** All threads of the position are done: move on. */
  lemma Finish(m: Machine, mode: Mode, nslots: nat, to: nat, answer: Option<Slots>, d: seq<Item>, pos: nat,
               matched: Option<Slots>, nlist: seq<Thread>, seen: set<nat>)
    requires Closed(m) && to <= |m.subject.text|
    requires MidWay(m, mode, nslots, to, answer, d, [], pos, matched)
    requires pos < |m.subject.text| && Here(m, d, pos + 1) && Closure(m, d, pos + 1, {}) == Closing(nlist, seen)
    ensures OnTrack(m, mode, nslots, to, answer, d, pos + 1, nlist, seen, matched)
  {
    SeedsValid(m, nslots, pos + 1, to);
    OutcomeNothing(m, mode, d, pos, SeedsLeft(nslots, matched.Some?, pos + 1, to));
  }

  /** A thread that matches is recorded, and everything behind it is cut. */
  lemma Record(m: Machine, mode: Mode, nslots: nat, to: nat, answer: Option<Slots>, d: seq<Item>, t: Thread,
               l: seq<Thread>, pos: nat, matched: Option<Slots>)
    requires Closed(m) && to <= |m.subject.text|
    requires MidWay(m, mode, nslots, to, answer, d, [t] + l, pos, matched)
    requires Valid(m, ItemAt(t, pos)) && Accepts(m, mode, ItemAt(t, pos))
    ensures MidWay(m, mode, nslots, to, answer, d, [], pos, Some(t.saves))
  {
    SeedsValid(m, nslots, pos + 1, to);
    OutcomeStep(m, mode, d, t, l, pos, SeedsLeft(nslots, matched.Some?, pos + 1, to));
    OutcomeNothing(m, mode, d, pos, []);
    assert d + [] == d;
  }

  lemma Advance(m: Machine, mode: Mode, nslots: nat, to: nat, answer: Option<Slots>, d: seq<Item>, t: Thread,
                l: seq<Thread>, pos: nat, matched: Option<Slots>)
    requires Closed(m) && to <= |m.subject.text|
    requires MidWay(m, mode, nslots, to, answer, d, [t] + l, pos, matched)
    requires Valid(m, ItemAt(t, pos)) && !Accepts(m, mode, ItemAt(t, pos))
    ensures MidWay(m, mode, nslots, to, answer, d + Succ(m, ItemAt(t, pos)), l, pos, matched)
  {
    SeedsValid(m, nslots, pos + 1, to);
    OutcomeStep(m, mode, d, t, l, pos, SeedsLeft(nslots, matched.Some?, pos + 1, to));
  }

  /** What `nlist` and its seen set hold once the threads so far have been advanced to `d`. */
  ghost predicate NextList(m: Machine, d: seq<Item>, pos: nat, threads: seq<Thread>, seen: set<nat>)
    requires Closed(m)
  {
    if pos < |m.subject.text|
    then Here(m, d, pos + 1) && Closure(m, d, pos + 1, {}) == Closing(threads, seen)
    else d == []
  }

  lemma NextListGrows(m: Machine, d: seq<Item>, y: Item, pos: nat, threads: seq<Thread>, seen: set<nat>)
    requires Closed(m) && NextList(m, d, pos, threads, seen) && pos < |m.subject.text| && Here(m, [y], pos + 1)
    ensures var c := Closure(m, [y], pos + 1, seen); NextList(m, d + [y], pos, threads + c.leaves, c.seen)
  {
    ClosureAppend(m, d, [y], pos + 1, {});
  }

  /** Advances the threads of `clist` over the byte at `pos`, into `nlist`, best thread first,
      until one of them matches. */
  method AdvanceThreads(m: Machine, mode: Mode, clist: ThreadList, nlist: ThreadList, seenN: SeenSet, pos: nat,
                        matched0: Option<Slots>, ghost nslots: nat, ghost to: nat, ghost answer: Option<Slots>)
      returns (matched: Option<Slots>, ghost d: seq<Item>)
    requires Closed(m) && to <= |m.subject.text| && clist != nlist
    requires seenN.Ok(|m.prog|) && seenN.Pcs() == {} && nlist.threads == []
    requires MidWay(m, mode, nslots, to, answer, [], clist.threads, pos, matched0)
    modifies nlist, seenN, seenN.mark
    ensures seenN.Ok(|m.prog|)
    ensures NextList(m, d, pos, nlist.threads, seenN.Pcs())
    ensures MidWay(m, mode, nslots, to, answer, d, [], pos, matched)
    ensures matched0.Some? ==> matched.Some?
  {
    hide Closure, Outcome, Closed, MidWay, Accepts;
    matched, d := matched0, [];
    MidWayLive(m, mode, nslots, to, answer, d, clist.threads, pos, matched0);
    if pos < |m.subject.text| {
      ClosureNothing(m, pos + 1, {});
    }
    var i := 0;
    while i < |clist.threads|
      invariant i <= |clist.threads| && seenN.Ok(|m.prog|) && clist.threads == old(clist.threads)
      invariant matched == matched0
      invariant NextList(m, d, pos, nlist.threads, seenN.Pcs())
      invariant MidWay(m, mode, nslots, to, answer, d, clist.threads[i..], pos, matched)
    {
      var t := clist.threads[i];
      assert clist.threads[i..] == [t] + clist.threads[i + 1..];
      MidWayLive(m, mode, nslots, to, answer, d, clist.threads[i..], pos, matched);
      ghost var x := ItemAt(t, pos);
      if m.prog[t.pc].IMatch? {
        var start := if t.saves != [] && t.saves[0].Some? then t.saves[0].value else pos;
        if AcceptSpan(m.subject.text, start, pos, mode) {
          MatchAccepts(m, mode, x);
          Record(m, mode, nslots, to, answer, d, t, clist.threads[i + 1..], pos, matched);
          matched := Some(t.saves);
          return;
        }
        MatchAccepts(m, mode, x);
      } else {
        ConsumingRejects(m, mode, x);
      }
      Advance(m, mode, nslots, to, answer, d, t, clist.threads[i + 1..], pos, matched);
      if pos < |m.subject.text| && Consumes(m.prog[t.pc], m.subject.text[pos], m.subject.icase) {
        ghost var y := Item(t.pc + 1, pos + 1, t.saves);
        ConsumingStep(m, x, y);
        NextListGrows(m, d, y, pos, nlist.threads, seenN.Pcs());
        AddThread(m, nlist, seenN, t.pc + 1, t.saves, pos + 1);
        d := d + [y];
      } else {
        assert d + Succ(m, x) == d;
      }
      i := i + 1;
    }
    assert clist.threads[i..] == [];
  }

  lemma MidWayLive(m: Machine, mode: Mode, nslots: nat, to: nat, answer: Option<Slots>, d: seq<Item>,
                   l: seq<Thread>, pos: nat, matched: Option<Slots>)
    requires Closed(m) && to <= |m.subject.text| && MidWay(m, mode, nslots, to, answer, d, l, pos, matched)
    ensures Live(m, l) && pos <= |m.subject.text|
    ensures l != [] ==> Valid(m, ItemAt(l[0], pos)) && IsLeaf(m.prog[l[0].pc])
  {
  }

  lemma MatchAccepts(m: Machine, mode: Mode, x: Item)
    requires Valid(m, x) && m.prog[x.pc].IMatch?
    ensures Accepts(m, mode, x) <==> AcceptSpan(m.subject.text, StartOf(x), x.pos, mode)
    ensures Succ(m, x) == []
  {
  }

  lemma ConsumingRejects(m: Machine, mode: Mode, x: Item)
    requires Valid(m, x) && !m.prog[x.pc].IMatch?
    ensures !Accepts(m, mode, x)
  {
  }

  lemma ConsumingStep(m: Machine, x: Item, y: Item)
    requires Closed(m) && Valid(m, x) && IsLeaf(m.prog[x.pc]) && x.pos < |m.subject.text|
    requires Consumes(m.prog[x.pc], m.subject.text[x.pos], m.subject.icase)
    requires y == Item(x.pc + 1, x.pos + 1, x.saves)
    ensures Succ(m, x) == [y] && Here(m, [y], y.pos) && y.pc < |m.prog|
  {
    SuccValid(m, x);
    assert Succ(m, x)[0] == y;
  }

  /** Seeds a start thread behind those carried forward, unless a match is known or the only
      allowed start is past. */
  method SeedStart(m: Machine, clist: ThreadList, seen: SeenSet, matched: Option<Slots>, anchored: bool, from: nat,
                   pos: nat, ghost mode: Mode, nslots: nat, ghost answer: Option<Slots>, ghost a: seq<Item>)
    requires Closed(m) && from <= pos <= |m.subject.text| && seen.Ok(|m.prog|)
    requires OnTrack(m, mode, nslots, LastStart(m, from, anchored), answer, a, pos, clist.threads, seen.Pcs(), matched)
    modifies clist, seen, seen.mark
    ensures seen.Ok(|m.prog|)
    ensures MidWay(m, mode, nslots, LastStart(m, from, anchored), answer, [], clist.threads, pos, matched)
  {
    hide Closure, Closed, MidWay, OnTrack;
    ghost var clist0, seen0 := clist.threads, seen.Pcs();
    if matched.None? && (!anchored || pos == from) {
      ClosedStart(m);
      AddThread(m, clist, seen, 0, Blank(nslots), pos);
    }
    Begin(m, mode, nslots, LastStart(m, from, anchored), answer, a, pos, clist0, seen0, matched, clist.threads);
  }

  /** The core Pike VM: it finds what the backtracking search finds, and nothing else. */
  method Exec(m: Machine, nslots: nat, from: nat, anchored: bool, mode: Mode) returns (matched: Option<Slots>)
    requires Closed(m)
    ensures from > |m.subject.text| ==> matched == None
    ensures from <= |m.subject.text| ==>
              matched == Reference(m, nslots, mode, from, LastStart(m, from, anchored))
  {
    hide Closure, Outcome, Closed, MidWay, OnTrack, Dfs, Seeds;
    matched := None;
    var len := |m.subject.text|;
    if from > len {
      return;
    }
    ghost var to := LastStart(m, from, anchored);
    ghost var answer := Reference(m, nslots, mode, from, to);
    var clist := new ThreadList();
    var nlist := new ThreadList();
    var seenC := new SeenSet(|m.prog|);
    var seenN := new SeenSet(|m.prog|);
    ghost var a: seq<Item> := [];
    StartsOnTrack(m, mode, nslots, from, to);
    var pos := from;
    while true
      invariant from <= pos <= len && clist != nlist && seenC != seenN && seenC.mark != seenN.mark
      invariant fresh(clist) && fresh(nlist) && fresh(seenC) && fresh(seenC.mark) && fresh(seenN) && fresh(seenN.mark)
      invariant seenC.Ok(|m.prog|) && seenN.Ok(|m.prog|)
      invariant OnTrack(m, mode, nslots, to, answer, a, pos, clist.threads, seenC.Pcs(), matched)
      decreases len - pos
    {
      SeedStart(m, clist, seenC, matched, anchored, from, pos, mode, nslots, answer, a);
      if clist.threads == [] && (matched.Some? || anchored || pos >= len) {
        NothingLeft(m, mode, nslots, to, answer, [], pos, matched);
        return;
      }
      seenN.Clear();
      nlist.threads := [];
      matched, a := AdvanceThreads(m, mode, clist, nlist, seenN, pos, matched, nslots, to, answer);
      if pos >= len {
        NothingLeft(m, mode, nslots, to, answer, a, pos, matched);
        return;
      }
      Finish(m, mode, nslots, to, answer, a, pos, matched, nlist.threads, seenN.Pcs());
      clist, nlist := nlist, clist;
      seenC, seenN := seenN, seenC;
      pos := pos + 1;
    }
  }

  lemma ClosedStart(m: Machine)
    requires Closed(m)
    ensures |m.prog| > 0
  {
  }

  lemma StartsOnTrack(m: Machine, mode: Mode, nslots: nat, from: nat, to: nat)
    requires Closed(m) && from <= to <= |m.subject.text|
    ensures OnTrack(m, mode, nslots, to, Reference(m, nslots, mode, from, to), [], from, [], {}, None)
  {
    SeedsValid(m, nslots, from, to);
    ClosureNothing(m, from, {});
    assert [] + Seeds(nslots, from, to) == Seeds(nslots, from, to);
  }

  /** No threads and no starts left: the record is the answer. */
  lemma NothingLeft(m: Machine, mode: Mode, nslots: nat, to: nat, answer: Option<Slots>, d: seq<Item>, pos: nat,
                    matched: Option<Slots>)
    requires Closed(m) && to <= |m.subject.text| && MidWay(m, mode, nslots, to, answer, d, [], pos, matched)
    requires d == [] && (matched.Some? || pos >= to)
    ensures answer == matched
  {
    SeedsValid(m, nslots, pos + 1, to);
    var t := SeedsLeft(nslots, matched.Some?, pos + 1, to);
    assert t == [];
    OutcomeNothing(m, mode, d, pos, t);
    assert d + t == [];
    DfsNothing(m, mode, {});
  }
}
