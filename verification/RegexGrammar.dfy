/** Which trees a pattern spells: the grammar of POSIX basic and extended expressions as the parser
    reads them. A tree is spelled by a stretch of the pattern; where there could be two readings, the
    conditions on the bytes around say which one is meant. */
module RegexGrammar {
  import opened Bytes
  import opened RegexSyntax

  // ----- tokens -----

  predicate IsByte(b: seq<Byte>, p: nat, c: char) {
    p < |b| && b[p] == c as int
  }

  predicate IsAltOp(b: seq<Byte>, p: nat, ere: bool) {
    if ere then IsByte(b, p, '|') else IsByte(b, p, '\\') && IsByte(b, p + 1, '|')
  }

  predicate IsGroupClose(b: seq<Byte>, p: nat, ere: bool) {
    if ere then IsByte(b, p, ')') else IsByte(b, p, '\\') && IsByte(b, p + 1, ')')
  }

  predicate IsGroupOpen(b: seq<Byte>, p: nat, ere: bool) {
    if ere then IsByte(b, p, '(') else IsByte(b, p, '\\') && IsByte(b, p + 1, '(')
  }

  predicate DigitAt(b: seq<Byte>, p: nat) {
    p < |b| && IsDigit(b[p])
  }

  // ----- intervals -----

  /** The end of the digits that start at `p`. */
  function DigitsEnd(b: seq<Byte>, p: nat): (q: nat)
    requires p <= |b|
    ensures p <= q <= |b| && !DigitAt(b, q)
    ensures forall k :: p <= k < q ==> DigitAt(b, k)
    decreases |b| - p
  {
    if DigitAt(b, p) then DigitsEnd(b, p + 1) else p
  }

  /** The decimal number in b[p..q]. */
  function Number(b: seq<Byte>, p: nat, q: nat): nat
    requires p <= q <= |b| && forall k :: p <= k < q ==> DigitAt(b, k)
    decreases q - p
  {
    if p == q then 0
    else
      assert DigitAt(b, q - 1);
      10 * Number(b, p, q - 1) + (b[q - 1] - 48)
  }

  lemma {:induction false} DigitsEndIs(b: seq<Byte>, p: nat, q: nat)
    requires p <= q <= |b| && !DigitAt(b, q)
    requires forall k :: p <= k < q ==> DigitAt(b, k)
    ensures DigitsEnd(b, p) == q
    decreases q - p
  {
    if p < q {
      assert DigitAt(b, p);
      DigitsEndIs(b, p + 1, q);
    }
  }

  /** Counting a digit never brings a number back under the cap. */
  lemma {:induction false} NumberGrows(b: seq<Byte>, p: nat, q: nat, r: nat)
    requires p <= q <= r <= |b| && forall k :: p <= k < r ==> DigitAt(b, k)
    ensures Number(b, p, q) <= Number(b, p, r)
    decreases r - q
  {
    if q < r {
      assert DigitAt(b, r - 1);
      NumberGrows(b, p, q, r - 1);
    }
  }

  datatype Interval = NotInterval | BadBounds | Bounds(min: nat, max: Option<nat>, end: nat)

  /** Is the closing brace at `p`? If so, the position behind it. */
  function CloseBrace(b: seq<Byte>, p: nat, bre: bool): Option<nat> {
    if bre then if IsByte(b, p, '\\') && IsByte(b, p + 1, '}') then Some(p + 2) else None
    else if IsByte(b, p, '}') then Some(p + 1) else None
  }

  /** The interval that starts at `start`, just behind the opening brace, with true numbers. */
  function IntervalAt(b: seq<Byte>, start: nat, bre: bool): Interval
    requires start <= |b|
  {
    var p := DigitsEnd(b, start);
    if p == start then NotInterval
    else
      var mn := Number(b, start, p);
      var comma := IsByte(b, p, ',');
      var q := if comma then DigitsEnd(b, p + 1) else p;
      var mx := if !comma then Some(mn) else if q == p + 1 then None else Some(Number(b, p + 1, q));
      match CloseBrace(b, q, bre)
      case None => NotInterval
      case Some(end) =>
        if mn > RE_DUP_MAX || (mx.Some? && (mx.value > RE_DUP_MAX || mn > mx.value)) then BadBounds
        else Bounds(mn, mx, end)
  }

  // ----- named classes -----

  function Members(s: seq<Byte>): set<Byte> {
    set x | x in s
  }

  predicate Between(lo: Byte, x: Byte, hi: Byte) { lo <= x <= hi }

  function Range(lo: Byte, hi: Byte): set<Byte> {
    set x: Byte | 0 <= x < 256 && Between(lo, x, hi)
  }

  function NamedClass(name: seq<Byte>): Option<set<Byte>> {
    var lower := Range(97, 122);
    var upper := Range(65, 90);
    var digit := Range(48, 57);
    var graph := Range(33, 126);
    if name == Ascii("alpha") then Some(lower + upper)
    else if name == Ascii("digit") then Some(digit)
    else if name == Ascii("alnum") then Some(lower + upper + digit)
    else if name == Ascii("upper") then Some(upper)
    else if name == Ascii("lower") then Some(lower)
    else if name == Ascii("space") then Some({32, 9, 10, 13, 11, 12})
    else if name == Ascii("blank") then Some({32, 9})
    else if name == Ascii("punct") then Some(graph - lower - upper - digit)
    else if name == Ascii("cntrl") then Some(Range(0, 31) + {127})
    else if name == Ascii("graph") then Some(graph)
    else if name == Ascii("print") then Some(graph + {32})
    else if name == Ascii("xdigit") then
      Some(digit + Range(65, 70) + Range(97, 102))
    else None
  }

  function Ascii(s: string): seq<Byte>
  {
    seq(|s|, i requires 0 <= i < |s| => s[i] as int % 256)
  }

  function Named(name: string): set<Byte> {
    match NamedClass(Ascii(name))
    case None => {}
    case Some(members) => members
  }

  predicate Halves(whole: set<Byte>, a: set<Byte>, b: set<Byte>) {
    whole == a + b && a !! b
  }

  lemma FirstBytes(s: string)
    requires |s| >= 3 && forall i :: 0 <= i < 3 ==> s[i] < 256 as char
    ensures var a := Ascii(s); |a| == |s| && a[0] == s[0] as int && a[1] == s[1] as int && a[2] == s[2] as int
  {
  }

  /** The printing bytes are those from space to tilde, and split further; lower case lies 32 above
      upper case. */
  lemma PrintingClasses()
    ensures Named("print") == Range(32, 126)
    ensures Halves(Named("print"), Named("graph"), {32}) && Halves(Named("graph"), Named("alnum"), Named("punct"))
    ensures Halves(Named("alnum"), Named("alpha"), Named("digit")) && Named("digit") == Range(48, 57)
    ensures Halves(Named("alpha"), Named("upper"), Named("lower")) && Named("upper") == Range(65, 90)
    ensures forall x: Byte :: x < 224 ==> (x in Named("upper") <==> x + 32 in Named("lower"))
  {
    hide Ascii;
    FirstBytes("alpha");
    FirstBytes("digit");
    FirstBytes("alnum");
    FirstBytes("upper");
    FirstBytes("lower");
    FirstBytes("punct");
    FirstBytes("graph");
    FirstBytes("print");
    FirstBytes("cntrl");
    FirstBytes("space");
    FirstBytes("blank");
    var letters := Range(97, 122) + Range(65, 90) + Range(48, 57);
    assert letters <= Range(33, 126);
  }

  /** The ASCII bytes that do not print, the space bytes, and the digits of base 16. */
  lemma OtherClasses()
    ensures Named("cntrl") == Range(0, 127) - Range(32, 126)
    ensures Halves(Named("space"), Named("blank"), Range(10, 13)) && Named("blank") == {9, 32}
    ensures Halves(Named("xdigit"), Range(48, 57), Range(65, 70) + Range(97, 102))
  {
    hide Ascii;
    FirstBytes("alpha");
    FirstBytes("digit");
    FirstBytes("alnum");
    FirstBytes("upper");
    FirstBytes("lower");
    FirstBytes("space");
    FirstBytes("blank");
    FirstBytes("punct");
    FirstBytes("cntrl");
    FirstBytes("graph");
    FirstBytes("print");
    FirstBytes("xdigit");
  }

  // ----- bracket expressions -----

  /** Where the first `delim` followed by a closing bracket is, from `k` on. */
  function PairEnd(b: seq<Byte>, k: nat, delim: Byte): (e: nat)
    ensures k <= e
    decreases if k < |b| then |b| - k else 0
  {
    if k + 1 < |b| && !(b[k] == delim && IsByte(b, k + 1, ']')) then PairEnd(b, k + 1, delim) else k
  }

  function BracketRange(lo: Byte, hi: Byte): set<Byte> {
    if lo <= hi then Range(lo, hi) else {lo, '-' as int, hi}
  }

  /** The item at `p` of a bracket expression, the bytes it stands for and its end. */
  function BracketItem(b: seq<Byte>, p: nat): (r: Option<(set<Byte>, nat)>)
    requires p < |b|
    ensures r.Some? ==> p < r.value.1 <= |b|
  {
    if IsByte(b, p, '[') && (IsByte(b, p + 1, ':') || IsByte(b, p + 1, '.') || IsByte(b, p + 1, '=')) then
      var k := PairEnd(b, p + 2, b[p + 1]);
      if k + 1 >= |b| then None
      else if IsByte(b, p + 1, ':') then
        match NamedClass(b[p + 2..k])
        case None => None
        case Some(named) => Some((named, k + 2))
      else Some((Members(b[p + 2..k]), k + 2))
    else if p + 2 < |b| && IsByte(b, p + 1, '-') && !IsByte(b, p + 2, ']') then
      Some((BracketRange(b[p], b[p + 2]), p + 3))
    else Some(({b[p]}, p + 1))
  }

  /** Items one after another; a closing bracket is one only in first place. */
  ghost predicate SpellsMembers(b: seq<Byte>, from: nat, to: nat, members: set<Byte>)
    decreases to
  {
    if from == to then members == {}
    else
      exists m: nat, before: set<Byte>, added: set<Byte> ::
        && from <= m < to && m < |b| && SpellsMembers(b, from, m, before) && BracketItem(b, m) == Some((added, to))
        && (IsByte(b, m, ']') ==> m == from) && members == before + added
  }

  /** Behind the opening bracket an optional circumflex, items, and the closing bracket. */
  ghost predicate SpellsBracket(b: seq<Byte>, p: nat, q: nat, members: set<Byte>, negated: bool) {
    && IsByte(b, p, '[') && (negated <==> IsByte(b, p + 1, '^'))
    && var from := if negated then p + 2 else p + 1;
       from < q - 1 && IsByte(b, q - 1, ']') && SpellsMembers(b, from, q - 1, members)
  }

  // ----- the levels of the grammar -----

  datatype Dialect = Dialect(ere: bool, translate: bool)

  /** The bytes of an operator that is escaped in basic expressions. */
  function Width(d: Dialect): nat {
    if d.ere then 1 else 2
  }

  function Escaped(c: Byte, translate: bool): Byte {
    if !translate then c
    else if c == 'n' as int then 10
    else if c == 't' as int then 9
    else if c == 'r' as int then 13
    else c
  }

  predicate SpellsLiteral(b: seq<Byte>, translate: bool, p: nat, q: nat, c: Byte) {
    p < |b| &&
    if !IsByte(b, p, '\\') then c == b[p] && q == p + 1 && !IsByte(b, p, '.') && !IsByte(b, p, '[')
    else if p + 1 < |b| then c == Escaped(b[p + 1], translate) && q == p + 2
    else c == b[p] && q == p + 1
  }

  /** One byte, a bracket expression, or a group. */
  ghost predicate SpellsAtom(b: seq<Byte>, d: Dialect, p: nat, q: nat, a: Ast)
    decreases a, 1
  {
    match a
    case Group(_, inner) =>
      IsGroupOpen(b, p, d.ere) && q >= Width(d) && IsGroupClose(b, q - Width(d), d.ere)
      && SpellsAlt(b, d, p + Width(d), q - Width(d), inner)
    case Any => !IsGroupOpen(b, p, d.ere) && IsByte(b, p, '.') && q == p + 1
    case Class(members, negated) => !IsGroupOpen(b, p, d.ere) && SpellsBracket(b, p, q, members, negated)
    case Lit(c) => !IsGroupOpen(b, p, d.ere) && SpellsLiteral(b, d.translate, p, q, c)
    case _ => false
  }

  /** The operator `c`, escaped in basic expressions, stands at `p`. */
  predicate OperatorAt(b: seq<Byte>, d: Dialect, p: nat, c: char) {
    if d.ere then IsByte(b, p, c) else IsByte(b, p, '\\') && IsByte(b, p + 1, c)
  }

  /** An atom with its quantifiers. */
  ghost predicate SpellsPiece(b: seq<Byte>, d: Dialect, p: nat, q: nat, a: Ast)
    decreases a, 2
  {
    match a
    case Star(x) => q > 0 && IsByte(b, q - 1, '*') && SpellsPiece(b, d, p, q - 1, x)
    case Plus(x) => q >= Width(d) && OperatorAt(b, d, q - Width(d), '+') && SpellsPiece(b, d, p, q - Width(d), x)
    case Quest(x) => q >= Width(d) && OperatorAt(b, d, q - Width(d), '?') && SpellsPiece(b, d, p, q - Width(d), x)
    case Repeat(x, mn, mx) =>
      exists m: nat :: SpellsPiece(b, d, p, m, x) && IntervalFrom(b, d, m) == Bounds(mn, mx, q)
    case _ => SpellsAtom(b, d, p, q, a)
  }

  /** The interval whose opening brace is at `m`. */
  function IntervalFrom(b: seq<Byte>, d: Dialect, m: nat): (r: Interval)
    ensures r.Bounds? ==> m < r.end <= |b|
  {
    if OperatorAt(b, d, m, '{') then IntervalAt(b, m + Width(d), !d.ere) else NotInterval
  }

  /** No quantifier is left at `q`. */
  predicate NoQuantifier(b: seq<Byte>, d: Dialect, q: nat) {
    && !IsByte(b, q, '*') && !OperatorAt(b, d, q, '+') && !OperatorAt(b, d, q, '?')
    && IntervalFrom(b, d, q) == NotInterval
  }

  /** In basic expressions a dollar sign is an anchor at the end of a branch only. */
  predicate DollarAnchor(b: seq<Byte>, ere: bool, p: nat) {
    ere || p + 1 >= |b| || IsAltOp(b, p + 1, false) || IsGroupClose(b, p + 1, false)
  }

  /** An anchor, or an atom with all the quantifiers that follow it. A circumflex is an anchor in
      basic expressions at the start of a branch only. */
  ghost predicate SpellsItem(b: seq<Byte>, d: Dialect, p: nat, q: nat, a: Ast, first: bool)
    decreases a, 3
  {
    var start := IsByte(b, p, '^') && (d.ere || first);
    var end := IsByte(b, p, '$') && DollarAnchor(b, d.ere, p);
    && p < |b| && !IsAltOp(b, p, d.ere) && !IsGroupClose(b, p, d.ere)
    && match a
       case Start => start && q == p + 1
       case End => end && q == p + 1
       case _ => !start && !end && SpellsPiece(b, d, p, q, a) && NoQuantifier(b, d, q)
  }

  ghost predicate SpellsItems(b: seq<Byte>, d: Dialect, p: nat, q: nat, items: seq<Ast>)
    decreases items, 0
  {
    if items == [] then p == q
    else
      var last := |items| - 1;
      exists m: nat :: SpellsItems(b, d, p, m, items[..last]) && SpellsItem(b, d, m, q, items[last], last == 0)
  }

  /** A branch, up to an alternation operator, a closing parenthesis or the end. */
  ghost predicate SpellsConcat(b: seq<Byte>, d: Dialect, p: nat, q: nat, a: Ast)
    decreases a, 4
  {
    && (q >= |b| || IsAltOp(b, q, d.ere) || IsGroupClose(b, q, d.ere))
    && match a
       case Empty => p == q
       case Concat(items) => |items| > 1 && SpellsItems(b, d, p, q, items)
       case _ => SpellsItem(b, d, p, q, a, true)
  }

  ghost predicate SpellsBranches(b: seq<Byte>, d: Dialect, p: nat, q: nat, branches: seq<Ast>)
    decreases branches, 0
  {
    if branches == [] then false
    else
      var last := |branches| - 1;
      if last == 0 then SpellsConcat(b, d, p, q, branches[0])
      else
        exists m: nat ::
          && SpellsBranches(b, d, p, m, branches[..last]) && IsAltOp(b, m, d.ere)
          && SpellsConcat(b, d, m + Width(d), q, branches[last])
  }

  /** `a` is spelled by the bytes from `p` to `q`. */
  ghost predicate SpellsAlt(b: seq<Byte>, d: Dialect, p: nat, q: nat, a: Ast)
    decreases a, 5
  {
    match a
    case Alt(branches) => |branches| > 1 && SpellsBranches(b, d, p, q, branches) && !IsAltOp(b, q, d.ere)
    case _ => SpellsConcat(b, d, p, q, a) && !IsAltOp(b, q, d.ere)
  }

  // ----- reading: which tree a pattern has, if any -----

  const MAX_NEST: nat := 1000

  /** A tree, the position behind it, and the number of groups so far. */
  datatype Reading = Reading(ast: Ast, pos: nat, groups: nat) | Unreadable

  ghost predicate Moves(r: Reading, b: seq<Byte>, pos: nat) {
    r.Reading? ==> pos <= r.pos <= |b|
  }

  function BranchesTree(branches: seq<Ast>): Ast
    requires branches != []
  {
    if |branches| == 1 then branches[0] else Alt(branches)
  }

  function ItemsTree(items: seq<Ast>): Ast {
    if items == [] then Empty else if |items| == 1 then items[0] else Concat(items)
  }

  ghost function ReadAlt(b: seq<Byte>, d: Dialect, pos: nat, groups: nat, depth: nat): (r: Reading)
    requires pos <= |b|
    ensures Moves(r, b, pos)
    decreases |b| - pos, 4
  {
    match ReadItems(b, d, pos, groups, depth, [])
    case Unreadable => Unreadable
    case Reading(a, p, g) => ReadBranches(b, d, p, g, depth, [a])
  }

  /** The branches that follow. */
  ghost function ReadBranches(b: seq<Byte>, d: Dialect, pos: nat, groups: nat, depth: nat,
      branches: seq<Ast>): (r: Reading)
    requires pos <= |b| && branches != []
    ensures Moves(r, b, pos)
    decreases |b| - pos, 3
  {
    if !IsAltOp(b, pos, d.ere) then Reading(BranchesTree(branches), pos, groups)
    else
      match ReadItems(b, d, pos + Width(d), groups, depth, [])
      case Unreadable => Unreadable
      case Reading(a, p, g) => ReadBranches(b, d, p, g, depth, branches + [a])
  }

  predicate StartAnchor(b: seq<Byte>, d: Dialect, pos: nat, first: bool) {
    IsByte(b, pos, '^') && (d.ere || first)
  }

  predicate EndAnchor(b: seq<Byte>, d: Dialect, pos: nat) {
    IsByte(b, pos, '$') && DollarAnchor(b, d.ere, pos)
  }

  /** The items of a branch that follow. */
  ghost function ReadItems(b: seq<Byte>, d: Dialect, pos: nat, groups: nat, depth: nat, items: seq<Ast>): (r: Reading)
    requires pos <= |b|
    ensures Moves(r, b, pos)
    decreases |b| - pos, 2
  {
    if pos >= |b| || IsAltOp(b, pos, d.ere) || IsGroupClose(b, pos, d.ere) then Reading(ItemsTree(items), pos, groups)
    else if StartAnchor(b, d, pos, items == []) then ReadItems(b, d, pos + 1, groups, depth, items + [Start])
    else if EndAnchor(b, d, pos) then ReadItems(b, d, pos + 1, groups, depth, items + [End])
    else
      match ReadPiece(b, d, pos, groups, depth)
      case Unreadable => Unreadable
      case Reading(a, p, g) => ReadItems(b, d, p, g, depth, items + [a])
  }

  ghost function ReadPiece(b: seq<Byte>, d: Dialect, pos: nat, groups: nat, depth: nat): (r: Reading)
    requires pos < |b|
    ensures Moves(r, b, pos) && (r.Reading? ==> r.pos > pos)
    decreases |b| - pos, 1
  {
    match ReadAtom(b, d, pos, groups, depth)
    case Unreadable => Unreadable
    case Reading(a, p, g) => ReadQuantifiers(b, d, p, g, a)
  }

  ghost function ReadAtom(b: seq<Byte>, d: Dialect, pos: nat, groups: nat, depth: nat): (r: Reading)
    requires pos < |b|
    ensures Moves(r, b, pos) && (r.Reading? ==> r.pos > pos)
    decreases |b| - pos, 0
  {
    if IsGroupOpen(b, pos, d.ere) then
      if depth + 1 > MAX_NEST then Unreadable
      else
        match ReadAlt(b, d, pos + Width(d), groups + 1, depth + 1)
        case Unreadable => Unreadable
        case Reading(a, p, g) =>
          if IsGroupClose(b, p, d.ere) then Reading(Group(groups + 1, a), p + Width(d), g) else Unreadable
    else if IsByte(b, pos, '.') then Reading(Any, pos + 1, groups)
    else if IsByte(b, pos, '[') then
      var negated := IsByte(b, pos + 1, '^');
      match ReadMembers(b, if negated then pos + 2 else pos + 1, true, {})
      case None => Unreadable
      case Some((members, p)) => Reading(Class(members, negated), p, groups)
    else if IsByte(b, pos, '\\') && pos + 1 < |b| then Reading(Lit(Escaped(b[pos + 1], d.translate)), pos + 2, groups)
    else Reading(Lit(b[pos]), pos + 1, groups)
  }

  /** The members of a bracket expression that follow, and the position behind the closing bracket. */
  ghost function ReadMembers(b: seq<Byte>, pos: nat, first: bool, members: set<Byte>): (r: Option<(set<Byte>, nat)>)
    ensures r.Some? ==> pos < r.value.1 <= |b|
    decreases if pos < |b| then |b| - pos else 0
  {
    if pos >= |b| then None
    else if IsByte(b, pos, ']') && !first then Some((members, pos + 1))
    else
      match BracketItem(b, pos)
      case None => None
      case Some((added, p)) => ReadMembers(b, p, false, members + added)
  }

  /** The quantifiers that follow an atom. An interval with illegal bounds is an error. */
  ghost function ReadQuantifiers(b: seq<Byte>, d: Dialect, pos: nat, groups: nat, a: Ast): (r: Reading)
    requires pos <= |b|
    ensures Moves(r, b, pos)
    decreases |b| - pos
  {
    if IsByte(b, pos, '*') then ReadQuantifiers(b, d, pos + 1, groups, Star(a))
    else if OperatorAt(b, d, pos, '+') then ReadQuantifiers(b, d, pos + Width(d), groups, Plus(a))
    else if OperatorAt(b, d, pos, '?') then ReadQuantifiers(b, d, pos + Width(d), groups, Quest(a))
    else
      match IntervalFrom(b, d, pos)
      case NotInterval => Reading(a, pos, groups)
      case BadBounds => Unreadable
      case Bounds(mn, mx, p) => ReadQuantifiers(b, d, p, groups, Repeat(a, mn, mx))
  }
}
