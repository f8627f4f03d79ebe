/** The syntax tree of a regular expression and the set of spans it matches.

    `Denotes` is the reference meaning: which spans text[i..j] an expression matches.
    It knows nothing about programs or threads. */
module RegexSyntax {

  import opened Bytes

  /** `Class` holds the members of a bracket expression, before negation. */
  datatype Ast =
    | Empty
    | Lit(c: Byte)
    | Any
    | Class(members: set<Byte>, negated: bool)
    | Start
    | End
    | Concat(items: seq<Ast>)
    | Alt(branches: seq<Ast>)
    | Group(index: nat, inner: Ast)
    | Star(inner: Ast)
    | Plus(inner: Ast)
    | Quest(inner: Ast)
    | Repeat(inner: Ast, min: nat, max: Option<nat>)

  // ----- bytes -----

  predicate IsLower(x: Byte) { 97 <= x <= 122 }

  predicate IsUpper(x: Byte) { 65 <= x <= 90 }

  predicate IsDigit(x: Byte) { 48 <= x <= 57 }

  function OtherCase(x: Byte): Byte {
    if IsLower(x) then x - 32 else if IsUpper(x) then x + 32 else x
  }

  predicate IsWord(x: Byte) {
    IsLower(x) || IsUpper(x) || IsDigit(x) || x == 95
  }

  predicate LitMatches(c: Byte, x: Byte, icase: bool) {
    x == c || (icase && OtherCase(x) == c)
  }

  predicate ClassMatches(members: set<Byte>, negated: bool, x: Byte, icase: bool) {
    (x in members || (icase && OtherCase(x) in members)) != negated
  }

  // ----- meaning -----

  /** What text an expression is matched against, and how letters compare. */
  datatype Subject = Subject(text: seq<Byte>, icase: bool)

  /** The expression `a` matches text[i..j]. Anchors look at the whole text. */
  ghost predicate Denotes(a: Ast, s: Subject, i: nat, j: nat)
    decreases a, 0
  {
    i <= j <= |s.text| &&
    match a
    case Empty => i == j
    case Lit(c) => j == i + 1 && LitMatches(c, s.text[i], s.icase)
    case Any => j == i + 1
    case Class(ms, neg) => j == i + 1 && ClassMatches(ms, neg, s.text[i], s.icase)
    case Start => i == j == 0
    case End => i == j == |s.text|
    case Concat(items) => DenotesSeq(items, s, i, j)
    case Alt(branches) => exists k :: 0 <= k < |branches| && Denotes(branches[k], s, i, j)
    case Group(_, inner) => Denotes(inner, s, i, j)
    case Star(inner) => exists n: nat :: Power(inner, n, s, i, j)
    case Plus(inner) => exists n: nat :: n >= 1 && Power(inner, n, s, i, j)
    case Quest(inner) => i == j || Denotes(inner, s, i, j)
    case Repeat(inner, mn, mx) =>
      exists n: nat :: mn <= n && (mx.Some? ==> n <= mx.value) && Power(inner, n, s, i, j)
  }

  /** One after the other. */
  ghost predicate DenotesSeq(items: seq<Ast>, s: Subject, i: nat, j: nat)
    decreases items, 0
  {
    if items == [] then i == j
    else
      var last := |items| - 1;
      exists k: nat :: DenotesSeq(items[..last], s, i, k) && Denotes(items[last], s, k, j)
  }

  /** Exactly `n` copies of `a`, one after the other. */
  ghost predicate Power(a: Ast, n: nat, s: Subject, i: nat, j: nat)
    decreases a, n + 1
  {
    if n == 0 then i == j
    else exists k: nat :: Denotes(a, s, i, k) && Power(a, n - 1, s, k, j)
  }

  /** The expression matches somewhere in the text. */
  ghost predicate Occurs(a: Ast, s: Subject) {
    exists i: nat, j: nat :: Denotes(a, s, i, j)
  }

  lemma OccursAt(a: Ast, s: Subject, i: nat, j: nat)
    requires Denotes(a, s, i, j)
    ensures Occurs(a, s) && i <= j <= |s.text|
  {
  }

  /** Copies can also be counted from the other end. */
  lemma {:induction false} PowerAdd(a: Ast, m: nat, n: nat, s: Subject, i: nat, k: nat, j: nat)
    requires Power(a, m, s, i, k) && Power(a, n, s, k, j)
    ensures Power(a, m + n, s, i, j)
    decreases m
  {
    if m > 0 {
      var h: nat :| Denotes(a, s, i, h) && Power(a, m - 1, s, h, k);
      PowerAdd(a, m - 1, n, s, h, k, j);
      assert Denotes(a, s, i, h) && Power(a, m + n - 1, s, h, j);
    }
  }

  lemma PowerSnoc(a: Ast, n: nat, s: Subject, i: nat, k: nat, j: nat)
    requires Power(a, n, s, i, k) && Denotes(a, s, k, j)
    ensures Power(a, n + 1, s, i, j)
  {
    assert Power(a, 0, s, j, j);
    assert Power(a, 1, s, k, j);
    PowerAdd(a, n, 1, s, i, k, j);
  }

  // ----- capture groups -----

  /** Slots 2n and 2n + 1 hold where group `n` starts and ends. */
  type Slots = seq<Option<nat>>

  function Saved(saves: Slots, slot: nat, pos: nat): Slots {
    if slot < |saves| then saves[slot := Some(pos)] else saves
  }

  function Blank(nslots: nat): Slots {
    seq(nslots, _ => None)
  }

  /** The number of groups opened inside `a`. */
  function GroupCount(a: Ast): nat
    decreases a, 0
  {
    match a
    case Concat(items) => GroupCountSeq(items)
    case Alt(branches) => GroupCountSeq(branches)
    case Group(_, inner) => 1 + GroupCount(inner)
    case Star(inner) => GroupCount(inner)
    case Plus(inner) => GroupCount(inner)
    case Quest(inner) => GroupCount(inner)
    case Repeat(inner, _, _) => GroupCount(inner)
    case _ => 0
  }

  function GroupCountSeq(items: seq<Ast>): nat
    decreases items, 0
  {
    if items == [] then 0 else GroupCountSeq(items[..|items| - 1]) + GroupCount(items[|items| - 1])
  }

  /** Groups carry the number of their opening parenthesis, counted from `g + 1`. */
  predicate Numbered(a: Ast, g: nat)
    decreases a, 0
  {
    match a
    case Concat(items) => NumberedSeq(items, g)
    case Alt(branches) => NumberedSeq(branches, g)
    case Group(n, inner) => n == g + 1 && Numbered(inner, g + 1)
    case Star(inner) => Numbered(inner, g)
    case Plus(inner) => Numbered(inner, g)
    case Quest(inner) => Numbered(inner, g)
    case Repeat(inner, _, _) => Numbered(inner, g)
    case _ => true
  }

  predicate NumberedSeq(items: seq<Ast>, g: nat)
    decreases items, 0
  {
    items == [] ||
    var last := |items| - 1;
    NumberedSeq(items[..last], g) && Numbered(items[last], g + GroupCountSeq(items[..last]))
  }

  /** POSIX RE_DUP_MAX: the largest count in an interval. */
  const RE_DUP_MAX: nat := 32767

  /** An alternation has a branch; an interval is ordered and within RE_DUP_MAX. */
  predicate WellFormed(a: Ast)
    decreases a, 0
  {
    match a
    case Concat(items) => WellFormedSeq(items)
    case Alt(branches) => branches != [] && WellFormedSeq(branches)
    case Group(_, inner) => WellFormed(inner)
    case Star(inner) => WellFormed(inner)
    case Plus(inner) => WellFormed(inner)
    case Quest(inner) => WellFormed(inner)
    case Repeat(inner, mn, mx) =>
      WellFormed(inner) && mn <= RE_DUP_MAX && (mx.Some? ==> mn <= mx.value <= RE_DUP_MAX)
    case _ => true
  }

  predicate WellFormedSeq(items: seq<Ast>)
    decreases items, 0
  {
    forall k :: 0 <= k < |items| ==> WellFormed(items[k])
  }

  /** `a` contains, at any depth, the group number `n` with the body `inner`. */
  ghost predicate HasGroup(a: Ast, n: nat, inner: Ast)
    decreases a, 0
  {
    match a
    case Concat(items) => exists k :: 0 <= k < |items| && HasGroup(items[k], n, inner)
    case Alt(branches) => exists k :: 0 <= k < |branches| && HasGroup(branches[k], n, inner)
    case Group(m, body) => (m == n && body == inner) || HasGroup(body, n, inner)
    case Star(body) => HasGroup(body, n, inner)
    case Plus(body) => HasGroup(body, n, inner)
    case Quest(body) => HasGroup(body, n, inner)
    case Repeat(body, _, _) => HasGroup(body, n, inner)
    case _ => false
  }
}
