/** Dependency order by depth-first search, as the package manager uses it twice: to sort a set
    of packages and to resolve what has to be installed. */
module DependencyOrder {
  import opened Bytes

  /** What to do about one dependency of a package. */
  datatype Action = Skip | Visit(name: string) | Stop

  /** The actions for the dependencies of a package, or nothing for an unknown package. */
  type Graph = string -> Option<seq<Action>>

  ghost predicate Edge(g: Graph, a: string, b: string) {
    g(a).Some? && Visit(b) in g(a).value
  }

  ghost predicate Path(g: Graph, p: seq<string>) {
    p != [] && forall i :: 0 <= i < |p| - 1 ==> Edge(g, p[i], p[i + 1])
  }

  ghost predicate Leads(g: Graph, roots: set<string>, p: seq<string>, n: string) {
    Path(g, p) && p[0] in roots && p[|p| - 1] == n
  }

  ghost predicate Reachable(g: Graph, roots: set<string>, n: string) {
    exists p :: Leads(g, roots, p, n)
  }

  /** An unknown package, or one with a dependency nothing can be done about. */
  ghost predicate Broken(g: Graph, n: string) {
    g(n).None? || Stop in g(n).value
  }

  ghost predicate Cycle(g: Graph, p: seq<string>) {
    Path(g, p) && |p| >= 2 && p[0] == p[|p| - 1]
  }

  ghost predicate OnCycle(g: Graph, n: string) {
    exists p :: Cycle(g, p) && p[0] == n
  }

  /** From some root a broken package or a cycle can be reached. */
  ghost predicate Trouble(g: Graph, roots: set<string>) {
    exists n :: Reachable(g, roots, n) && (Broken(g, n) || OnCycle(g, n))
  }

  function Elems(s: seq<string>): set<string> {
    set n | n in s
  }

  lemma ElemsSnoc(s: seq<string>, n: string)
    ensures Elems(s + [n]) == Elems(s) + {n}
  {
  }

  lemma Fewer(names: set<string>, stack: set<string>, n: string)
    requires n in names && n !in stack
    ensures |names - (stack + {n})| < |names - stack|
  {
    assert names - stack == (names - (stack + {n})) + {n};
  }

  lemma StillNoRepeats(s: seq<string>, n: string)
    requires NoRepeats(s) && n !in Elems(s)
    ensures NoRepeats(s + [n])
  {
  }

  ghost predicate NoRepeats(s: seq<string>) {
    forall i, j :: 0 <= i < j < |s| ==> s[i] != s[j]
  }

  /** Every package comes after all it depends on, and none is broken. */
  ghost predicate Ordered(g: Graph, s: seq<string>) {
    forall i :: 0 <= i < |s| ==> !Broken(g, s[i]) && forall b :: Edge(g, s[i], b) ==> b in s[..i]
  }

  /** Nothing is listed that the roots do not lead to. */
  ghost predicate OnlyNeeded(g: Graph, roots: set<string>, s: seq<string>) {
    forall n :: n in s ==> Reachable(g, roots, n)
  }

  lemma StillNeeded(g: Graph, roots: set<string>, s: seq<string>, p: seq<string>, n: string)
    requires OnlyNeeded(g, roots, s) && Leads(g, roots, p, n)
    ensures OnlyNeeded(g, roots, s + [n])
  {
    assert Reachable(g, roots, n);
  }

  // ----- an order shows that there is no trouble -----

  lemma {:induction false} StaysInside(g: Graph, s: seq<string>, roots: set<string>, p: seq<string>, k: nat)
    requires Ordered(g, s) && (forall r :: r in roots ==> r in s) && Path(g, p) && p[0] in roots && k < |p|
    ensures p[k] in s
    decreases k
  {
    if k > 0 {
      StaysInside(g, s, roots, p, k - 1);
      var i :| 0 <= i < |s| && s[i] == p[k - 1];
      assert Edge(g, p[k - 1], p[k - 1 + 1]);
      assert p[k] in s[..i];
    }
  }

  /** Along a path the places in the order go down. */
  lemma {:induction false} GoesDown(g: Graph, s: seq<string>, p: seq<string>, k: nat, i: nat) returns (j: nat)
    requires Ordered(g, s) && Path(g, p) && k < |p| && i < |s| && s[i] == p[0]
    ensures j <= i && s[j] == p[k] && (k > 0 ==> j < i)
    decreases k
  {
    if k == 0 {
      j := i;
    } else {
      var h := GoesDown(g, s, p, k - 1, i);
      assert Edge(g, p[k - 1], p[k - 1 + 1]);
      j :| 0 <= j < h && s[j] == p[k];
    }
  }

  lemma OrderedMeansNoTrouble(g: Graph, s: seq<string>, roots: set<string>)
    requires Ordered(g, s) && NoRepeats(s) && forall r :: r in roots ==> r in s
    ensures !Trouble(g, roots)
  {
    forall n | Reachable(g, roots, n) ensures !Broken(g, n) && !OnCycle(g, n) {
      var p :| Leads(g, roots, p, n);
      StaysInside(g, s, roots, p, |p| - 1);
      var i :| 0 <= i < |s| && s[i] == n;
      if OnCycle(g, n) {
        var c :| Cycle(g, c) && c[0] == n;
        var j := GoesDown(g, s, c, |c| - 1, i);
        assert false;
      }
    }
  }

  // ----- the search -----

  ghost predicate Within(g: Graph, names: set<string>) {
    forall a, b :: a in names && Edge(g, a, b) ==> b in names
  }

  lemma Extended(g: Graph, roots: set<string>, path: seq<string>, n: string)
    requires path != [] ==> Path(g, path) && path[0] in roots && Edge(g, path[|path| - 1], n)
    requires path == [] ==> n in roots
    ensures Leads(g, roots, path + [n], n)
  {
    var p := path + [n];
    forall i | 0 <= i < |p| - 1 ensures Edge(g, p[i], p[i + 1]) {
      if i < |path| - 1 {
        assert Edge(g, path[i], path[i + 1]);
      }
    }
  }

  /** Meeting a package on the stack again closes a cycle. */
  lemma ClosesCycle(g: Graph, roots: set<string>, path: seq<string>, n: string)
    requires Path(g, path) && path[0] in roots && Edge(g, path[|path| - 1], n) && n in path
    ensures Trouble(g, roots)
  {
    var i :| 0 <= i < |path| && path[i] == n;
    var p := path + [n];
    Extended(g, roots, path, n);
    var c := p[i..];
    forall k | 0 <= k < |c| - 1 ensures Edge(g, c[k], c[k + 1]) {
      assert Edge(g, p[i + k], p[i + k + 1]);
    }
    assert Cycle(g, c) && c[0] == n;
    assert Reachable(g, roots, n);
  }

  lemma BrokenIsTrouble(g: Graph, roots: set<string>, path: seq<string>, n: string)
    requires Leads(g, roots, path + [n], n) && Broken(g, n)
    ensures Trouble(g, roots)
  {
    assert Reachable(g, roots, n);
  }

  lemma OnStack(path: seq<string>, n: string)
    requires n in Elems(path)
    ensures n in path
  {
  }

  lemma InSeen(s: seq<string>)
    ensures forall n :: n in Elems(s) <==> n in s
  {
  }

  lemma Unknown(g: Graph, n: string)
    requires g(n).None?
    ensures Broken(g, n)
  {
  }

  class Search {
    const g: Graph
    ghost const roots: set<string>
    ghost const names: set<string>
    var seen: set<string>
    var stack: set<string>
    var resolved: seq<string>

    ghost predicate Ok()
      reads this
    {
      && Within(g, names) && stack <= names
      && seen == Elems(resolved) && NoRepeats(resolved) && Ordered(g, resolved)
      && seen !! stack && OnlyNeeded(g, roots, resolved)
    }

    constructor (g: Graph, ghost roots: set<string>, ghost names: set<string>)
      requires Within(g, names) && roots <= names
      ensures Ok() && seen == {} && stack == {} && resolved == []
      ensures this.g == g && this.roots == roots && this.names == names
    {
      this.g, this.roots, this.names := g, roots, names;
      seen, stack, resolved := {}, {}, [];
    }

    /** The names on the stack form a path from a root to the package to visit. */
    ghost predicate From(path: seq<string>, name: string)
      reads this
    {
      && stack == Elems(path)
      && (if path == [] then name in roots else Path(g, path) && path[0] in roots && Edge(g, path[|path| - 1], name))
    }

    /** Resolves one package; fails only if there is trouble. */
    method Resolve(name: string, ghost path: seq<string>) returns (ok: bool)
      requires Ok() && name in names && From(path, name)
      modifies this
      ensures ok ==> Ok() && stack == old(stack) && name in seen && old(resolved) <= resolved
      ensures !ok ==> Trouble(g, roots)
      decreases |names - stack|, 0
    {
      hide Elems, NoRepeats, Ordered, Within, Broken, Path, OnlyNeeded;
      if name in seen {
        return true;
      }
      if name in stack {
        OnStack(path, name);
        ClosesCycle(g, roots, path, name);
        return false;
      }
      Extended(g, roots, path, name);
      Fewer(names, stack, name);
      ElemsSnoc(path, name);
      stack := stack + {name};
      var actions := g(name);
      if actions.None? {
        Unknown(g, name);
        BrokenIsTrouble(g, roots, path, name);
        return false;
      }
      ok := ResolveAll(name, actions.value, path + [name]);
      if !ok {
        return false;
      }
      stack := stack - {name};
      seen := seen + {name};
      InSeen(resolved);
      AddedInOrder(g, resolved, name);
      StillNoRepeats(resolved, name);
      StillNeeded(g, roots, resolved, path + [name], name);
      ElemsSnoc(resolved, name);
      resolved := resolved + [name];
    }

    /** All dependencies of the package on top of the stack. */
    method ResolveAll(name: string, actions: seq<Action>, ghost path: seq<string>) returns (ok: bool)
      requires Ok() && name in stack && g(name) == Some(actions)
      requires stack == Elems(path) && Leads(g, roots, path, name)
      modifies this
      ensures ok ==> Ok() && stack == old(stack) && old(resolved) <= resolved
      ensures ok ==> !Broken(g, name) && forall b :: Edge(g, name, b) ==> b in seen
      ensures !ok ==> Trouble(g, roots)
      decreases |names - stack|, 1
    {
      var i := 0;
      while i < |actions|
        invariant i <= |actions| && Ok() && stack == old(stack) && old(resolved) <= resolved
        invariant forall k :: 0 <= k < i ==> actions[k] != Stop && (actions[k].Visit? ==> actions[k].name in seen)
      {
        match actions[i] {
          case Skip =>
          case Stop =>
            assert Stop in actions && Reachable(g, roots, name);
            return false;
          case Visit(dep) =>
            assert Visit(dep) in actions && Edge(g, name, dep);
            ok := Resolve(dep, path);
            if !ok {
              return false;
            }
        }
        i := i + 1;
      }
      return true;
    }
  }

  lemma AddedInOrder(g: Graph, s: seq<string>, n: string)
    requires Ordered(g, s) && !Broken(g, n) && forall b :: Edge(g, n, b) ==> b in s
    ensures Ordered(g, s + [n])
  {
    var t := s + [n];
    forall i | 0 <= i < |t| ensures !Broken(g, t[i]) && forall b :: Edge(g, t[i], b) ==> b in t[..i] {
      assert t[..i] == s[..i];
    }
  }

  /** Resolves all roots in turn. It succeeds exactly when there is no trouble, and then every
      package comes once and after all it depends on. */
  method ResolveRoots(g: Graph, packages: seq<string>, ghost names: set<string>) returns (r: Option<seq<string>>)
    requires Within(g, names) && forall n :: n in packages ==> n in names
    ensures r.Some? <==> !Trouble(g, Elems(packages))
    ensures r.Some? ==> NoRepeats(r.value) && Ordered(g, r.value) && OnlyNeeded(g, Elems(packages), r.value)
    ensures r.Some? ==> forall n :: n in packages ==> n in r.value
  {
    ghost var roots := Elems(packages);
    var search := new Search(g, roots, names);
    var i := 0;
    while i < |packages|
      invariant i <= |packages| && fresh(search) && search.Ok() && search.stack == {}
      invariant search.g == g && search.roots == roots && search.names == names
      invariant forall k :: 0 <= k < i ==> packages[k] in search.seen
    {
      var ok := search.Resolve(packages[i], []);
      if !ok {
        return None;
      }
      i := i + 1;
    }
    OrderedMeansNoTrouble(g, search.resolved, roots);
    return Some(search.resolved);
  }
}
