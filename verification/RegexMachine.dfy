/** Compiled programs and the steps they allow.

    A configuration (`Item`) is a program counter, a text position and the capture slots.
    `Succ` lists the configurations one step away, most preferred first. Everything else in
    the regex model, the compiler proof and both matchers, is stated over `Succ`. */
module RegexMachine {
  import opened Bytes
  import opened RegexSyntax

  datatype Inst =
    | IChar(c: Byte)
    | IAny
    | IClass(members: set<Byte>, negated: bool)
    | ISave(slot: nat)
    | IJmp(target: nat)
    | ISplit(first: nat, second: nat)
    | IStart
    | IEnd
    | IMatch

  datatype Item = Item(pc: nat, pos: nat, saves: Slots)

  datatype Machine = Machine(prog: seq<Inst>, subject: Subject)

  /** Consuming instructions and Match: the ones that become threads. */
  predicate IsLeaf(i: Inst) {
    i.IChar? || i.IAny? || i.IClass? || i.IMatch?
  }

  /** Does the instruction accept byte `x`? */
  predicate Consumes(i: Inst, x: Byte, icase: bool) {
    match i
    case IChar(c) => LitMatches(c, x, icase)
    case IAny => true
    case IClass(ms, neg) => ClassMatches(ms, neg, x, icase)
    case _ => false
  }

  function Succ(m: Machine, x: Item): (r: seq<Item>)
    requires x.pc < |m.prog|
  {
    var next := Item(x.pc + 1, x.pos, x.saves);
    match m.prog[x.pc]
    case IJmp(t) => [x.(pc := t)]
    case ISplit(a, b) => [x.(pc := a), x.(pc := b)]
    case ISave(k) => [next.(saves := Saved(x.saves, k, x.pos))]
    case IStart => if x.pos == 0 then [next] else []
    case IEnd => if x.pos == |m.subject.text| then [next] else []
    case IMatch => []
    case _ =>
      if x.pos < |m.subject.text| && Consumes(m.prog[x.pc], m.subject.text[x.pos], m.subject.icase)
      then [next.(pos := x.pos + 1)] else []
  }

  /** Where control can go from instruction `i` at address `pc`. */
  function Targets(i: Inst, pc: nat): set<nat> {
    match i
    case IJmp(t) => {t}
    case ISplit(a, b) => {a, b}
    case IMatch => {}
    case _ => {pc + 1}
  }

  lemma SuccShape(m: Machine, x: Item, y: Item)
    requires x.pc < |m.prog| && y in Succ(m, x)
    ensures y.pc in Targets(m.prog[x.pc], x.pc)
    ensures x.pos <= y.pos <= x.pos + 1
    ensures x.pos <= |m.subject.text| ==> y.pos <= |m.subject.text|
    ensures |y.saves| == |x.saves|
    ensures y.pos == x.pos || IsLeaf(m.prog[x.pc])
  {
  }

  ghost predicate TargetsWithin(i: Inst, pc: nat, lo: nat, hi: nat) {
    !i.IMatch? && forall t :: t in Targets(i, pc) ==> lo <= t <= hi
  }

  /** `code` sits in the program at address `b`. */
  ghost predicate At(prog: seq<Inst>, b: nat, code: seq<Inst>) {
    b + |code| <= |prog| && prog[b..b + |code|] == code
  }

  // ----- paths -----

  /** A run that stays at addresses in [lo, hi) until, perhaps, its last configuration. */
  ghost predicate PathIn(m: Machine, lo: nat, hi: nat, p: seq<Item>) {
    && p != []
    && hi <= |m.prog|
    && (forall k :: 0 <= k < |p| - 1 ==> lo <= p[k].pc < hi)
    && (forall k :: 0 <= k < |p| - 1 ==> StepAt(m, p, k))
  }

  ghost predicate StepAt(m: Machine, p: seq<Item>, k: nat)
    requires k + 1 < |p|
  {
    p[k].pc < |m.prog| && p[k + 1] in Succ(m, p[k])
  }

  function Last(p: seq<Item>): Item
    requires p != []
  {
    p[|p| - 1]
  }

  function Join(p: seq<Item>, q: seq<Item>): seq<Item>
    requires q != []
  {
    p + q[1..]
  }

  lemma JoinPath(m: Machine, lo: nat, hi: nat, p: seq<Item>, q: seq<Item>)
    requires PathIn(m, lo, hi, p) && PathIn(m, lo, hi, q) && Last(p) == q[0]
    requires lo <= q[0].pc < hi || |q| == 1
    ensures PathIn(m, lo, hi, Join(p, q)) && Join(p, q)[0] == p[0] && Last(Join(p, q)) == Last(q)
  {
    var r := Join(p, q);
    forall k | 0 <= k < |r| - 1 ensures lo <= r[k].pc < hi && StepAt(m, r, k) {
      if k < |p| - 1 {
        assert StepAt(m, p, k);
      } else {
        assert r[k] == q[k - (|p| - 1)];
        assert StepAt(m, q, k - (|p| - 1));
      }
    }
  }

  lemma OneStep(m: Machine, lo: nat, hi: nat, x: Item, y: Item)
    requires lo <= x.pc < hi <= |m.prog| && y in Succ(m, x)
    ensures PathIn(m, lo, hi, [x, y])
  {
    assert StepAt(m, [x, y], 0);
  }

  lemma TailPath(m: Machine, lo: nat, hi: nat, p: seq<Item>, k: nat)
    requires PathIn(m, lo, hi, p) && k < |p|
    ensures PathIn(m, lo, hi, p[k..]) && PathIn(m, lo, hi, p[..k + 1])
  {
    forall h | 0 <= h < |p[k..]| - 1 ensures StepAt(m, p[k..], h) {
      assert StepAt(m, p, k + h);
    }
    var q := p[..k + 1];
    forall h | 0 <= h < |q| - 1 ensures StepAt(m, q, h) {
      assert StepAt(m, p, h);
    }
  }

  lemma {:induction false} PathMonotone(m: Machine, lo: nat, hi: nat, p: seq<Item>)
    requires PathIn(m, lo, hi, p) && p[0].pos <= |m.subject.text|
    ensures p[0].pos <= Last(p).pos <= |m.subject.text|
    ensures |Last(p).saves| == |p[0].saves|
    decreases |p|
  {
    if |p| > 1 {
      assert StepAt(m, p, 0);
      SuccShape(m, p[0], p[1]);
      TailPath(m, lo, hi, p, 1);
      PathMonotone(m, lo, hi, p[1..]);
    }
  }
}
