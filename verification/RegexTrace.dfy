/** Runs of the machine together with the decisions they take at the split instructions. */
module RegexTrace {
  import opened Bytes
  import opened RegexSyntax
  import opened RegexWays
  import opened RegexMachine

  function SpotOf(x: Item): Spot { Spot(x.pos, x.saves) }

  /** The step to the first successor, or (`later`) to the second. */
  ghost predicate StepTo(m: Machine, x: Item, later: bool, y: Item) {
    x.pc < |m.prog| &&
    var i := if later then 1 else 0;
    i < |Succ(m, x)| && y == Succ(m, x)[i]
  }

  /** A run inside [lo, hi) that takes the successors `os` tells. */
  ghost predicate Traced(m: Machine, lo: nat, hi: nat, p: seq<Item>, os: seq<bool>) {
    && |p| == |os| + 1 && hi <= |m.prog|
    && forall k :: 0 <= k < |os| ==> lo <= p[k].pc < hi && StepTo(m, p[k], os[k], p[k + 1])
  }

  predicate Splits(m: Machine, x: Item) {
    x.pc < |m.prog| && m.prog[x.pc].ISplit?
  }

  /** The decision of a single step: none, unless it is a split. */
  function Decision(m: Machine, x: Item, later: bool): seq<Choice> {
    if Splits(m, x) then [Choice(x.pc, x.pos, later)] else []
  }

  function Decisions(m: Machine, p: seq<Item>, os: seq<bool>): seq<Choice>
    requires |p| == |os| + 1
  {
    if os == [] then [] else Decision(m, p[0], os[0]) + Decisions(m, p[1..], os[1..])
  }

  lemma TracedPath(m: Machine, lo: nat, hi: nat, p: seq<Item>, os: seq<bool>)
    requires Traced(m, lo, hi, p, os)
    ensures PathIn(m, lo, hi, p)
  {
    forall k | 0 <= k < |p| - 1 ensures StepAt(m, p, k) {
      assert StepTo(m, p[k], os[k], p[k + 1]);
    }
  }

  lemma {:induction false} PathTraced(m: Machine, lo: nat, hi: nat, p: seq<Item>) returns (os: seq<bool>)
    requires PathIn(m, lo, hi, p)
    ensures Traced(m, lo, hi, p, os)
    decreases |p|
  {
    if |p| == 1 {
      os := [];
    } else {
      TailPath(m, lo, hi, p, 1);
      var rest := PathTraced(m, lo, hi, p[1..]);
      assert StepAt(m, p, 0);
      var o := if Succ(m, p[0])[0] == p[1] then false else true;
      assert |Succ(m, p[0])| <= 2;
      assert StepTo(m, p[0], o, p[1]);
      os := [o] + rest;
      forall k | 0 <= k < |os| ensures lo <= p[k].pc < hi && StepTo(m, p[k], os[k], p[k + 1]) {
        if k > 0 {
          assert StepTo(m, p[1..][k - 1], rest[k - 1], p[1..][k]);
        }
      }
    }
  }

  /** A run not yet at its end takes a step and goes on. */
  lemma StepOn(m: Machine, lo: nat, hi: nat, p: seq<Item>, os: seq<bool>)
    requires Traced(m, lo, hi, p, os) && p[0].pc != Last(p).pc
    ensures os != [] && lo <= p[0].pc < hi && StepTo(m, p[0], os[0], p[1])
    ensures Traced(m, lo, hi, p[1..], os[1..]) && Last(p[1..]) == Last(p)
    ensures Decisions(m, p, os) == Decision(m, p[0], os[0]) + Decisions(m, p[1..], os[1..])
  {
    var q, qs := p[1..], os[1..];
    forall k | 0 <= k < |qs| ensures lo <= q[k].pc < hi && StepTo(m, q[k], qs[k], q[k + 1]) {
      assert StepTo(m, p[k + 1], os[k + 1], p[k + 2]);
    }
  }

  // ----- putting runs together -----

  ghost predicate Runs(m: Machine, lo: nat, hi: nat, x: Item, w: seq<Choice>, y: Item, p: seq<Item>, os: seq<bool>) {
    Traced(m, lo, hi, p, os) && p[0] == x && Last(p) == y && Decisions(m, p, os) == w
  }

  /** Some run from `x` to `y` inside [lo, hi) decides as `w` says. */
  ghost predicate Leads(m: Machine, lo: nat, hi: nat, x: Item, w: seq<Choice>, y: Item) {
    exists p, os :: Runs(m, lo, hi, x, w, y, p, os)
  }

  lemma Stay(m: Machine, lo: nat, hi: nat, x: Item)
    requires hi <= |m.prog|
    ensures Leads(m, lo, hi, x, [], x)
  {
    assert Runs(m, lo, hi, x, [], x, [x], []);
  }

  lemma OneLead(m: Machine, lo: nat, hi: nat, x: Item, later: bool, y: Item)
    requires lo <= x.pc < hi <= |m.prog| && StepTo(m, x, later, y)
    ensures Leads(m, lo, hi, x, Decision(m, x, later), y)
  {
    var p, os := [x, y], [later];
    assert Decisions(m, p[1..], os[1..]) == [];
    assert Runs(m, lo, hi, x, Decision(m, x, later), y, p, os);
  }

  lemma {:induction false} DecisionsJoin(m: Machine, p: seq<Item>, os: seq<bool>, q: seq<Item>, qs: seq<bool>)
    requires |p| == |os| + 1 && |q| == |qs| + 1 && Last(p) == q[0]
    ensures Decisions(m, Join(p, q), os + qs) == Decisions(m, p, os) + Decisions(m, q, qs)
    decreases |p|
  {
    if os == [] {
      assert p + q[1..] == q && os + qs == qs;
    } else {
      DecisionsJoin(m, p[1..], os[1..], q, qs);
      assert (p + q[1..])[1..] == p[1..] + q[1..] && (os + qs)[1..] == os[1..] + qs;
    }
  }

  /** Two runs in a row; the second may use the whole range or a part of it. */
  lemma JoinLeads(m: Machine, lo: nat, hi: nat, x: Item, w: seq<Choice>, y: Item, lo': nat, hi': nat, w': seq<Choice>,
                  z: Item)
    requires Leads(m, lo, hi, x, w, y) && Leads(m, lo', hi', y, w', z) && lo <= lo' && hi' <= hi
    ensures Leads(m, lo, hi, x, w + w', z)
  {
    hide Decisions;
    var p, os :| Runs(m, lo, hi, x, w, y, p, os);
    var q, qs :| Runs(m, lo', hi', y, w', z, q, qs);
    DecisionsJoin(m, p, os, q, qs);
    TracedJoin(m, lo, hi, p, os, lo', hi', q, qs);
    assert Runs(m, lo, hi, x, w + w', z, Join(p, q), os + qs);
  }

  lemma TracedJoin(m: Machine, lo: nat, hi: nat, p: seq<Item>, os: seq<bool>, lo': nat, hi': nat, q: seq<Item>,
                   qs: seq<bool>)
    requires Traced(m, lo, hi, p, os) && Traced(m, lo', hi', q, qs) && Last(p) == q[0] && lo <= lo' && hi' <= hi
    ensures Traced(m, lo, hi, Join(p, q), os + qs)
  {
    var r, rs := Join(p, q), os + qs;
    forall k | 0 <= k < |rs| ensures lo <= r[k].pc < hi && StepTo(m, r[k], rs[k], r[k + 1]) {
      if k < |os| {
        assert StepTo(m, p[k], os[k], p[k + 1]);
      } else {
        assert StepTo(m, q[k - |os|], qs[k - |os|], q[k - |os| + 1]);
      }
    }
  }

  /** A step in front of a run. */
  lemma StepLeads(m: Machine, lo: nat, hi: nat, x: Item, later: bool, y: Item, lo': nat, hi': nat, w: seq<Choice>,
                  z: Item)
    requires lo <= x.pc < hi <= |m.prog| && StepTo(m, x, later, y) && lo <= lo' && hi' <= hi
    requires Leads(m, lo', hi', y, w, z)
    ensures Leads(m, lo, hi, x, Decision(m, x, later) + w, z)
  {
    OneLead(m, lo, hi, x, later, y);
    JoinLeads(m, lo, hi, x, Decision(m, x, later), y, lo', hi', w, z);
  }

  lemma WidenLeads(m: Machine, lo: nat, hi: nat, lo': nat, hi': nat, x: Item, w: seq<Choice>, y: Item)
    requires Leads(m, lo', hi', x, w, y) && lo <= lo' && hi' <= hi <= |m.prog|
    ensures Leads(m, lo, hi, x, w, y)
  {
    var p, os :| Runs(m, lo', hi', x, w, y, p, os);
    assert Runs(m, lo, hi, x, w, y, p, os);
  }
}
