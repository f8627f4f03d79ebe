/** The regex engine as its callers see it: compile a pattern, search a line. */
module Regex {
  import opened Bytes
  import opened RegexSyntax
  import opened RegexWays
  import opened RegexMeaning
  import opened RegexMachine
  import opened RegexCode
  import opened RegexCompiler
  import opened RegexSearch
  import opened RegexVm
  import opened RegexTheorems
  import opened RegexGrammar
  import opened RegexParser

  datatype Regex = Regex(prog: seq<Inst>, nslots: nat, icase: bool)

  function MachineOf(re: Regex, text: seq<Byte>): Machine {
    Machine(re.prog, Subject(text, re.icase))
  }

  /** `re` is the compiled form of the tree `ast`. */
  ghost predicate Compiled(re: Regex, ast: Ast) {
    && WellFormed(ast) && Numbered(ast, 0)
    && re.prog == Program(ast) && re.nslots == Slotcount(ast) && |re.prog| <= MAX_PROG_LEN + 1
  }

  /** What reading a pattern gives. */
  ghost function ReadPattern(pat: seq<Byte>, ere: bool, translate: bool): Reading {
    ReadAlt(pat, Dialect(ere, translate), 0, 0, 0)
  }

  /** The pattern can be read to its end, and the program is not past the cap. */
  ghost predicate Compilable(pat: seq<Byte>, ere: bool, translate: bool) {
    var reading := ReadPattern(pat, ere, translate);
    reading.Reading? && reading.pos == |pat| && |Code(reading.ast, 1)| + 2 <= MAX_PROG_LEN
  }

  /** Parses and compiles. A program past the cap, cut short by the emitter, is refused. */
  method Compile(pat: seq<Byte>, ere: bool, icase: bool, translate: bool) returns (r: Result<Regex>)
    ensures r.Ok? <==> Compilable(pat, ere, translate)
    ensures r.Ok? ==> r.value.icase == icase && Compiled(r.value, ReadPattern(pat, ere, translate).ast)
    ensures r.Ok? ==> SpellsAlt(pat, Dialect(ere, translate), 0, |pat|, ReadPattern(pat, ere, translate).ast)
  {
    hide Code, ReadAlt, SpellsAlt;
    var parser := new Parser(pat, ere, translate);
    var parsed := parser.ParseAlt();
    if parsed.Err? || parser.pos != |pat| {
      return Err;
    }
    var ngroups := parser.gc;
    var builder := new Builder();
    builder.prog := builder.prog + [ISave(0)];
    builder.Emit(parsed.value);
    ghost var code := Code(parsed.value, 1);
    builder.prog := builder.prog + [ISave(1)];
    if |builder.prog| > MAX_PROG_LEN {
      return Err;
    }
    assert builder.prog == [ISave(0)] + code + [ISave(1)];
    builder.prog := builder.prog + [IMatch];
    r := Ok(Regex(builder.prog, 2 * (ngroups + 1), icase));
  }

  /** The match a backtracking search prefers. It is leftmost: no match starts earlier; and every
      group reported is a span its own sub-expression matches. */
  method Search(re: Regex, text: seq<Byte>, from: nat, ghost ast: Ast) returns (r: Option<Slots>)
    requires Compiled(re, ast)
    ensures from > |text| ==> r == None
    ensures from <= |text| ==> Closed(MachineOf(re, text))
                               && r == Reference(MachineOf(re, text), re.nslots, Mode(false, false), from, |text|)
    ensures from <= |text| ==> LeftmostFrom(ast, Subject(text, re.icase), from, r)
    ensures r.Some? ==> Preferred(ast, Subject(text, re.icase), r.value)
  {
    var m := MachineOf(re, text);
    CompiledClosed(m, ast);
    r := Exec(m, re.nslots, from, false, Mode(false, false));
    if from <= |text| {
      ReferenceExact(m, ast, Mode(false, false), from, |text|);
      Leftmost(ast, m.subject, from, r);
      if r.Some? {
        ReferenceFirst(m, ast, from);
      }
    }
  }

  /** Grep's test. In every mode the answer is yes exactly if some match passes the tests of `-x`
      and `-w` and no earlier start has a match with the same end. Without `-w`, and also with
      `-x`, where the word test holds by itself, that is plain matching. */
  method IsMatchLine(re: Regex, text: seq<Byte>, wholeLine: bool, word: bool, ghost ast: Ast) returns (r: bool)
    requires Compiled(re, ast)
    ensures r <==> exists s: nat, e: nat ::
                     Findable(ast, Subject(text, re.icase), Mode(wholeLine, word), 0, s, e)
    ensures !word && !wholeLine ==> (r <==> Occurs(ast, Subject(text, re.icase)))
    ensures wholeLine ==> (r <==> Denotes(ast, Subject(text, re.icase), 0, |text|))
  {
    hide Denotes, Findable, Reference;
    var m, mode := MachineOf(re, text), Mode(wholeLine, word);
    CompiledClosed(m, ast);
    var slots := Exec(m, re.nslots, 0, wholeLine, mode);
    r := slots.Some?;
    var to := LastStart(m, 0, wholeLine);
    ReferenceExact(m, ast, mode, 0, to);
    forall s: nat, e: nat | Findable(ast, m.subject, mode, 0, s, e) ensures s <= to {
      FindableStart(ast, m.subject, mode, s, e);
    }
    Decides(ast, m.subject, mode);
  }

  lemma FindableStart(ast: Ast, subject: Subject, mode: Mode, s: nat, e: nat)
    requires Findable(ast, subject, mode, 0, s, e)
    ensures s <= e <= |subject.text| && (mode.wholeLine ==> s == 0)
  {
    DenotesInText(ast, subject, s, e);
  }

  /** When every match passes the tests, what can be found is what is there. */
  lemma Decides(ast: Ast, subject: Subject, mode: Mode)
    ensures mode.wholeLine ==>
              ((exists s: nat, e: nat :: Findable(ast, subject, mode, 0, s, e)) <==>
                  Denotes(ast, subject, 0, |subject.text|))
    ensures mode == Mode(false, false) ==>
              ((exists s: nat, e: nat :: Findable(ast, subject, mode, 0, s, e)) <==> Occurs(ast, subject))
  {
    hide Denotes, Ends;
    if s: nat, e: nat :| Findable(ast, subject, mode, 0, s, e) {
      OccursAt(ast, subject, s, e);
    }
    if mode.wholeLine && Denotes(ast, subject, 0, |subject.text|) {
      var s := EarliestStart(ast, subject, 0, 0, |subject.text|);
      assert Findable(ast, subject, mode, 0, s, |subject.text|);
    }
    if mode == Mode(false, false) && Occurs(ast, subject) {
      var s1: nat, e: nat :| Denotes(ast, subject, s1, e);
      DenotesInText(ast, subject, s1, e);
      var s := EarliestStart(ast, subject, 0, s1, e);
      assert Findable(ast, subject, mode, 0, s, e);
    }
  }

  // ----- reading the captures -----

  /** The span of group `n`, if it took part in the match. Group 0 is the whole match. */
  function Group(saves: Slots, n: nat): Option<(nat, nat)> {
    if 2 * n + 1 < |saves| && saves[2 * n].Some? && saves[2 * n + 1].Some?
    then Some((saves[2 * n].value, saves[2 * n + 1].value)) else None
  }

  /** Group spans can be sliced out of the text: they are ordered and lie within the match. */
  lemma GroupInMatch(ast: Ast, subject: Subject, saves: Slots, s: nat, e: nat, n: nat)
    requires GoodSlots(ast, subject, saves, s, e) && Group(saves, n).Some?
    ensures var (gs, ge) := Group(saves, n).value;
      && s <= gs <= ge <= e <= |subject.text|
      && (n == 0 ==> (gs, ge) == (s, e) && Denotes(ast, subject, gs, ge))
      && (n >= 1 ==> exists inner :: HasGroup(ast, n, inner) && Denotes(inner, subject, gs, ge))
  {
    DenotesInText(ast, subject, s, e);
    if n >= 1 {
      assert GoodGroup(ast, subject, saves, n, s, e);
      var inner :| HasGroup(ast, n, inner) && Captured(inner, subject, saves, n, s, e);
      assert Denotes(inner, subject, saves[2 * n].value, saves[2 * n + 1].value);
    }
  }

  /** A parsed tree has one group of each number: the number determines the sub-expression. */
  lemma {:induction false} GroupUnique(a: Ast, g: nat, n: nat, x: Ast, y: Ast)
    requires Numbered(a, g) && HasGroup(a, n, x) && HasGroup(a, n, y)
    ensures x == y
    decreases a, 0
  {
    match a
    case Concat(items) => GroupUniqueSeq(items, g, n, x, y);
    case Alt(branches) => GroupUniqueSeq(branches, g, n, x, y);
    case Group(k, body) =>
      if HasGroup(body, n, x) { GroupRange(body, g + 1, n, x); }
      if HasGroup(body, n, y) { GroupRange(body, g + 1, n, y); }
      if k != n { GroupUnique(body, g + 1, n, x, y); }
    case Star(body) => GroupUnique(body, g, n, x, y);
    case Plus(body) => GroupUnique(body, g, n, x, y);
    case Quest(body) => GroupUnique(body, g, n, x, y);
    case Repeat(body, _, _) => GroupUnique(body, g, n, x, y);
  }

  lemma {:induction false} GroupUniqueSeq(items: seq<Ast>, g: nat, n: nat, x: Ast, y: Ast)
    requires NumberedSeq(items, g)
    requires exists k :: 0 <= k < |items| && HasGroup(items[k], n, x)
    requires exists k :: 0 <= k < |items| && HasGroup(items[k], n, y)
    ensures x == y
    decreases items, 0
  {
    var i :| 0 <= i < |items| && HasGroup(items[i], n, x);
    var j :| 0 <= j < |items| && HasGroup(items[j], n, y);
    var last := |items| - 1;
    var init, h := items[..last], g + GroupCountSeq(items[..last]);
    if i < last {
      assert HasGroup(init[i], n, x);
      GroupRangeSeq(init, g, i, n, x);
    } else {
      GroupRange(items[last], h, n, x);
    }
    if j < last {
      assert HasGroup(init[j], n, y);
      GroupRangeSeq(init, g, j, n, y);
    } else {
      GroupRange(items[last], h, n, y);
    }
    if i < last {
      GroupUniqueSeq(init, g, n, x, y);
    } else {
      GroupUnique(items[last], h, n, x, y);
    }
  }
}
