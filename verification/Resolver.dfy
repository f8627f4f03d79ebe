/** The two uses of the dependency order: sorting a set of packages, and finding what has to be
    installed for some packages, given what is installed, available, or comes from local files. */
module Resolver {
  import opened Bytes
  import opened DependencyOrder

  /** A package with the texts of its dependencies. */
  type Listed = (string, seq<string>)

  /** Name to dependencies; a later entry for the same name wins. */
  function DepMap(packages: seq<Listed>): map<string, seq<string>> {
    if packages == [] then map[]
    else
      var last := packages[|packages| - 1];
      DepMap(packages[..|packages| - 1])[last.0 := last.1]
  }

  method BuildDepMap(packages: seq<Listed>) returns (m: map<string, seq<string>>)
    ensures m == DepMap(packages)
  {
    m := map[];
    var i := 0;
    while i < |packages|
      invariant i <= |packages| && m == DepMap(packages[..i])
    {
      assert packages[..i + 1][..i] == packages[..i];
      m := m[packages[i].0 := packages[i].1];
      i := i + 1;
    }
    assert packages[..i] == packages;
  }

  function Names(packages: seq<Listed>): (r: seq<string>)
    ensures |r| == |packages| && forall i :: 0 <= i < |r| ==> r[i] == packages[i].0
  {
    seq(|packages|, i requires 0 <= i < |packages| => packages[i].0)
  }

  lemma {:induction false} DepMapKeys(packages: seq<Listed>)
    ensures DepMap(packages).Keys == Elems(Names(packages))
    decreases |packages|
  {
    if packages != [] {
      var last := |packages| - 1;
      DepMapKeys(packages[..last]);
      assert Names(packages) == Names(packages[..last]) + [packages[last].0];
      ElemsSnoc(Names(packages[..last]), packages[last].0);
    }
  }

  // ----- sorting a set of packages -----

  function InSetAction(m: map<string, seq<string>>, dep: string): Action {
    if dep in m then Visit(dep) else Skip
  }

  function Actions(deps: seq<string>, f: string -> Action): (r: seq<Action>)
    ensures |r| == |deps| && forall i :: 0 <= i < |r| ==> r[i] == f(deps[i])
  {
    seq(|deps|, i requires 0 <= i < |deps| => f(deps[i]))
  }

  /** Dependencies outside the set do not matter. */
  function InSet(m: map<string, seq<string>>): Graph {
    n => if n in m then Some(Actions(m[n], dep => InSetAction(m, dep))) else None
  }

  ghost predicate HasCycle(g: Graph) {
    exists p :: Cycle(g, p)
  }

  lemma InSetEdges(m: map<string, seq<string>>, a: string, b: string)
    ensures Edge(InSet(m), a, b) <==> a in m && b in m && b in m[a]
  {
    if a in m && b in m && b in m[a] {
      var i :| 0 <= i < |m[a]| && m[a][i] == b;
      assert Actions(m[a], dep => InSetAction(m, dep))[i] == Visit(b);
    }
  }

  /** In the set, the only trouble is a cycle. */
  lemma InSetTrouble(m: map<string, seq<string>>)
    ensures Trouble(InSet(m), m.Keys) <==> HasCycle(InSet(m))
  {
    var g := InSet(m);
    forall a, b ensures Edge(g, a, b) ==> a in m && b in m {
      InSetEdges(m, a, b);
    }
    if Trouble(g, m.Keys) {
      var n :| Reachable(g, m.Keys, n) && (Broken(g, n) || OnCycle(g, n));
      var p :| Leads(g, m.Keys, p, n);
      InKeys(m, p);
      assert Stop !in g(n).value;
    }
    if HasCycle(g) {
      var p :| Cycle(g, p);
      assert Edge(g, p[0], p[1]);
      assert Leads(g, m.Keys, [p[0]], p[0]);
      assert OnCycle(g, p[0]) && Reachable(g, m.Keys, p[0]);
    }
  }

  lemma InKeys(m: map<string, seq<string>>, p: seq<string>)
    requires Path(InSet(m), p) && p[0] in m
    ensures p[|p| - 1] in m
  {
    if |p| > 1 {
      assert Edge(InSet(m), p[|p| - 2], p[|p| - 2 + 1]);
      InSetEdges(m, p[|p| - 2], p[|p| - 1]);
    }
  }

  ghost predicate DependenciesFirst(m: map<string, seq<string>>, s: seq<string>) {
    forall i :: 0 <= i < |s| && s[i] in m ==> forall b :: b in m && b in m[s[i]] ==> b in s[..i]
  }

  /** Succeeds exactly when the dependencies within the set have no cycle; then every package is
      listed once, after all its dependencies in the set, and nothing else is listed. */
  method TopologicalSort(packages: seq<Listed>) returns (r: Option<seq<string>>)
    ensures r.Some? <==> !HasCycle(InSet(DepMap(packages)))
    ensures r.Some? ==> NoRepeats(r.value) && Elems(r.value) == Elems(Names(packages))
    ensures r.Some? ==> DependenciesFirst(DepMap(packages), r.value)
  {
    var m := BuildDepMap(packages);
    DepMapKeys(packages);
    InSetTrouble(m);
    var g := InSet(m);
    forall a, b ensures Edge(g, a, b) <==> a in m && b in m && b in m[a] {
      InSetEdges(m, a, b);
    }
    r := ResolveRoots(g, Names(packages), m.Keys);
    if r.Some? {
      OnlyKeys(m, r.value);
    }
  }

  lemma OnlyKeys(m: map<string, seq<string>>, s: seq<string>)
    requires OnlyNeeded(InSet(m), m.Keys, s)
    ensures forall n :: n in s ==> n in m
  {
    forall n | n in s ensures n in m {
      assert Reachable(InSet(m), m.Keys, n);
      var p :| Leads(InSet(m), m.Keys, p, n);
      InKeys(m, p);
    }
  }

  // ----- what to install -----

  datatype Package = Package(version: string, depends: seq<string>, provided: seq<string>)

  /** The database as finite maps; `listing` is the order in which installed packages are listed. */
  datatype Database = Database(installed: map<string, Package>, listing: seq<string>, available: map<string, Package>)

  /** Parsing a dependency, and whether a version satisfies it. */
  datatype Rules = Rules(nameOf: string -> string, meets: (string, string) -> bool)

  function Provides(pkg: Package, name: string): bool {
    exists p :: p in pkg.provided && (p == name || name + "=" <= p)
  }

  /** The first installed package that provides the name. */
  function FindProvider(db: Database, listing: seq<string>, name: string): (r: Option<string>)
    ensures r.Some? ==> r.value in listing && r.value in db.installed && Provides(db.installed[r.value], name)
    ensures r.None? ==> forall p :: p in listing && p in db.installed ==> !Provides(db.installed[p], name)
  {
    if listing == [] then None
    else if listing[0] in db.installed && Provides(db.installed[listing[0]], name) then Some(listing[0])
    else FindProvider(db, listing[1..], name)
  }

  /** An installed version satisfies the dependency. */
  predicate Satisfied(db: Database, rules: Rules, dep: string) {
    var n := rules.nameOf(dep);
    n in db.installed && rules.meets(dep, db.installed[n].version)
  }

  /** The package to install for a dependency: itself if local or available in a fitting version,
      otherwise a provider. */
  function Target(db: Database, rules: Rules, local: map<string, seq<string>>, dep: string): Option<string> {
    var n := rules.nameOf(dep);
    if n in local then Some(n)
    else if n in db.available && rules.meets(dep, db.available[n].version) then Some(n)
    else FindProvider(db, db.listing, n)
  }

  function ActionFor(db: Database, rules: Rules, local: map<string, seq<string>>, dep: string): Action {
    if Satisfied(db, rules, dep) then Skip
    else
      match Target(db, rules, local, dep)
      case Some(n) => Visit(n)
      case None => Stop
  }

  /** The dependencies of a package, if the package is known at all. */
  function DepsOf(db: Database, local: map<string, seq<string>>, name: string): Option<seq<string>> {
    if name in local then Some(local[name])
    else if name in db.available then Some(db.available[name].depends)
    else if name in db.installed then Some(db.installed[name].depends)
    else None
  }

  function ToInstall(db: Database, rules: Rules, local: map<string, seq<string>>): Graph {
    n => match DepsOf(db, local, n)
      case None => None
      case Some(deps) => Some(Actions(deps, dep => ActionFor(db, rules, local, dep)))
  }

  /** All packages there are. */
  function Known(db: Database, local: map<string, seq<string>>, packages: seq<string>): set<string> {
    Elems(packages) + local.Keys + db.available.Keys + db.installed.Keys
  }

  lemma KnownClosed(db: Database, rules: Rules, local: map<string, seq<string>>, packages: seq<string>)
    ensures Within(ToInstall(db, rules, local), Known(db, local, packages))
  {
    var g := ToInstall(db, rules, local);
    forall a, b | Edge(g, a, b) ensures b in Known(db, local, packages) {
      var deps := DepsOf(db, local, a).value;
      var acts := Actions(deps, dep => ActionFor(db, rules, local, dep));
      var i :| 0 <= i < |acts| && acts[i] == Visit(b);
      assert acts[i] == ActionFor(db, rules, local, deps[i]);
    }
  }

  /** The order is right for a database when every dependency of a listed package is satisfied by
      what is installed or has its package, or provider, listed earlier. */
  ghost predicate Installable(db: Database, rules: Rules, local: map<string, seq<string>>, s: seq<string>) {
    forall i :: 0 <= i < |s| ==> DependenciesMet(db, rules, local, s[i], s[..i])
  }

  ghost predicate DependenciesMet(db: Database, rules: Rules, local: map<string, seq<string>>, name: string,
                                  earlier: seq<string>)
  {
    && DepsOf(db, local, name).Some?
    && forall dep :: dep in DepsOf(db, local, name).value ==>
         || Satisfied(db, rules, dep)
         || (Target(db, rules, local, dep).Some? && Target(db, rules, local, dep).value in earlier)
  }

  lemma OrderedInstallable(db: Database, rules: Rules, local: map<string, seq<string>>, s: seq<string>)
    requires Ordered(ToInstall(db, rules, local), s)
    ensures Installable(db, rules, local, s)
  {
    var g := ToInstall(db, rules, local);
    forall i | 0 <= i < |s| ensures DependenciesMet(db, rules, local, s[i], s[..i]) {
      assert !Broken(g, s[i]);
      var deps := DepsOf(db, local, s[i]).value;
      var acts := Actions(deps, dep => ActionFor(db, rules, local, dep));
      forall dep | dep in deps && !Satisfied(db, rules, dep)
        ensures Target(db, rules, local, dep).Some? && Target(db, rules, local, dep).value in s[..i]
      {
        var k :| 0 <= k < |deps| && deps[k] == dep;
        assert acts[k] == ActionFor(db, rules, local, dep) && acts[k] in acts;
        assert Stop !in acts;
        assert Edge(g, s[i], Target(db, rules, local, dep).value);
      }
    }
  }

  /** Dependency resolution. It ends on every finite database, and fails exactly when the packages
      lead to an unknown package, an unresolved dependency or a cycle. */
  method ResolveWithLocal(db: Database, rules: Rules, packages: seq<string>, localPackages: seq<Listed>)
      returns (r: Option<seq<string>>)
    ensures r.Some? <==> !Trouble(ToInstall(db, rules, DepMap(localPackages)), Elems(packages))
    ensures r.Some? ==> NoRepeats(r.value) && Installable(db, rules, DepMap(localPackages), r.value)
    ensures r.Some? ==> forall n :: n in packages ==> n in r.value
    ensures r.Some? ==> OnlyNeeded(ToInstall(db, rules, DepMap(localPackages)), Elems(packages), r.value)
  {
    var local := BuildDepMap(localPackages);
    KnownClosed(db, rules, local, packages);
    r := ResolveRoots(ToInstall(db, rules, local), packages, Known(db, local, packages));
    if r.Some? {
      OrderedInstallable(db, rules, local, r.value);
    }
  }
}
