/** The pattern parser: POSIX basic and extended syntax. */
module RegexParser {
  import opened Bytes
  import opened RegexSyntax
  import opened RegexGrammar

  const USIZE_MAX: nat := 0xFFFF_FFFF_FFFF_FFFF

  datatype Result<+T> = Ok(value: T) | Err

  // ----- intervals -----

  function Min(x: nat, y: nat): nat { if x < y then x else y }

  /** A count as the parser keeps it: saturating, with a flag for an overflow. */
  ghost predicate Counted(n: nat, overflow: bool, true_: nat) {
    if true_ <= RE_DUP_MAX then n == true_ && !overflow else n > RE_DUP_MAX && overflow
  }

  /** Reads the digits at `start`. */
  method ReadNumber(b: seq<Byte>, start: nat) returns (n: nat, overflow: bool, p: nat)
    requires start <= |b|
    ensures p == DigitsEnd(b, start) && Counted(n, overflow, Number(b, start, p))
  {
    p, n, overflow := start, 0, false;
    while DigitAt(b, p)
      invariant start <= p <= |b| && forall k :: start <= k < p ==> DigitAt(b, k)
      invariant Counted(n, overflow, Number(b, start, p))
      decreases |b| - p
    {
      n := Min(Min(n * 10, USIZE_MAX) + (b[p] - 48), USIZE_MAX);
      if n > RE_DUP_MAX {
        overflow := true;
      }
      NumberGrows(b, start, p, p + 1);
      p := p + 1;
    }
    DigitsEndIs(b, start, p);
  }

  // ----- the parser -----

  class Parser {
    const b: seq<Byte>
    const ere: bool
    const translate: bool
    var pos: nat
    var gc: nat
    var depth: nat

    constructor (pat: seq<Byte>, ere: bool, translate: bool)
      ensures b == pat && this.ere == ere && this.translate == translate && pos == gc == depth == 0
    {
      this.b := pat;
      this.ere := ere;
      this.translate := translate;
      pos, gc, depth := 0, 0, 0;
    }

    function D(): Dialect {
      Dialect(ere, translate)
    }

    /** The result is that of reading. */
    ghost predicate IsReading(r: Result<Ast>, reading: Reading)
      reads this
    {
      match reading
      case Unreadable => r == Err
      case Reading(a, p, g) => r == Ok(a) && pos == p && gc == g
    }

    /** What every parsing method promises of its tree: shape, numbering from the old group
        count, and the new count. */
    ghost predicate Parsed(r: Result<Ast>, pos0: nat, gc0: nat, depth0: nat)
      reads this
    {
      && pos0 <= pos <= |b|
      && (r.Ok? ==> depth == depth0 && gc0 <= gc && Good(r.value, gc0, gc))
    }

    method ParseAlt() returns (r: Result<Ast>)
      requires pos <= |b|
      modifies this`pos, this`gc, this`depth
      ensures Parsed(r, old(pos), old(gc), old(depth))
      ensures r.Ok? ==> SpellsAlt(b, D(), old(pos), pos, r.value)
      ensures IsReading(r, ReadAlt(b, D(), old(pos), old(gc), old(depth)))
      decreases |b| - pos, 3
    {
      hide SpellsConcat, ReadItems;
      var first := ParseConcat();
      if first.Err? {
        return Err;
      }
      var br := [first.value];
      GoodOne(first.value, old(gc), gc);
      NotAlt(b, D(), old(pos), pos, first.value);
      while IsAltOp(b, pos, ere)
        invariant old(pos) <= pos <= |b| && depth == old(depth)
        invariant br != [] && old(gc) <= gc && GoodSeq(br, old(gc), gc)
        invariant SpellsBranches(b, D(), old(pos), pos, br) && !br[0].Alt?
        invariant ReadBranches(b, D(), pos, gc, depth, br) == ReadAlt(b, D(), old(pos), old(gc), old(depth))
        decreases |b| - pos
      {
        ghost var m := pos;
        pos := pos + if ere then 1 else 2;
        ghost var gc1 := gc;
        var next := ParseConcat();
        if next.Err? {
          return Err;
        }
        GoodSnoc(br, next.value, old(gc), gc1, gc);
        OneMoreBranch(b, D(), old(pos), m, pos, br, next.value);
        br := br + [next.value];
      }
      GoodList(br, old(gc), gc);
      assert |br| == 1 ==> SpellsConcat(b, D(), old(pos), pos, br[0]);
      return Ok(if |br| == 1 then br[0] else Alt(br));
    }

    predicate BreDollarIsAnchor()
      reads this
      ensures BreDollarIsAnchor() <==> DollarAnchor(b, false, pos)
    {
      var nx := pos + 1;
      nx >= |b| || IsAltOp(b, nx, false) || IsGroupClose(b, nx, false)
    }

    method ParseConcat() returns (r: Result<Ast>)
      requires pos <= |b|
      modifies this`pos, this`gc, this`depth
      ensures Parsed(r, old(pos), old(gc), old(depth))
      ensures r.Ok? ==> SpellsConcat(b, D(), old(pos), pos, r.value)
      ensures IsReading(r, ReadItems(b, D(), old(pos), old(gc), old(depth), []))
      decreases |b| - pos, 2
    {
      hide SpellsAtom, NoQuantifier, SpellsPiece, SpellsItem, SpellsItems, Good, GoodSeq;
      hide ReadAtom, ReadQuantifiers, ReadItems;
      NoItems(b, D(), pos, gc);
      var items: seq<Ast> := [];
      var first := true;
      while pos < |b| && !IsAltOp(b, pos, ere) && !IsGroupClose(b, pos, ere)
        invariant old(pos) <= pos <= |b| && depth == old(depth)
        invariant old(gc) <= gc && GoodSeq(items, old(gc), gc)
        invariant SpellsItems(b, D(), old(pos), pos, items) && (first <==> items == [])
        invariant ReadItems(b, D(), pos, gc, depth, items) == ReadItems(b, D(), old(pos), old(gc), old(depth), [])
        decreases |b| - pos
      {
        ghost var m := pos;
        NextItem(b, D(), pos, gc, depth, items);
        // '^' is always an anchor in ERE, and at the start of a branch in BRE.
        if IsByte(b, pos, '^') && (ere || first) {
          GoodAnchor(gc);
          GoodSnoc(items, Start, old(gc), gc, gc);
          AnchorItem(b, D(), m, Start, first);
          OneMoreItem(b, D(), old(pos), m, m + 1, items, Start);
          pos, items, first := pos + 1, items + [Start], false;
          continue;
        }
        // '$' is always an anchor in ERE, and at the end of a branch in BRE.
        if IsByte(b, pos, '$') && (ere || BreDollarIsAnchor()) {
          GoodAnchor(gc);
          GoodSnoc(items, End, old(gc), gc, gc);
          AnchorItem(b, D(), m, End, first);
          OneMoreItem(b, D(), old(pos), m, m + 1, items, End);
          pos, items, first := pos + 1, items + [End], false;
          continue;
        }
        ghost var gc1 := gc;
        var a := ParseAtom();
        if a.Err? {
          return Err;
        }
        AtomPiece(b, D(), m, pos, a.value);
        var q := ParseQuant(a.value, gc1, m);
        if q.Err? {
          return Err;
        }
        GoodSnoc(items, q.value, old(gc), gc1, gc);
        PieceItem(b, D(), m, pos, q.value, first);
        OneMoreItem(b, D(), old(pos), m, pos, items, q.value);
        items, first := items + [q.value], false;
      }
      GoodList(items, old(gc), gc);
      LastItem(b, D(), pos, gc, depth, items);
      ItemsMakeConcat(b, D(), old(pos), pos, items);
      return Ok(if items == [] then Empty else if |items| == 1 then items[0] else Concat(items));
    }

    method ParseAtom() returns (r: Result<Ast>)
      requires pos < |b|
      modifies this`pos, this`gc, this`depth
      ensures Parsed(r, old(pos), old(gc), old(depth)) && (r.Ok? ==> pos > old(pos))
      ensures r.Ok? ==> SpellsAtom(b, D(), old(pos), pos, r.value)
      ensures IsReading(r, ReadAtom(b, D(), old(pos), old(gc), old(depth)))
      decreases |b| - pos, 1
    {
      hide SpellsAlt, SpellsBracket, ReadAlt, ReadMembers;
      if IsGroupOpen(b, pos, ere) {
        pos := pos + if ere then 1 else 2;
        depth := depth + 1;
        if depth > MAX_NEST {
          return Err;
        }
        gc := gc + 1;
        var idx := gc;
        var inner := ParseAlt();
        if inner.Err? || !IsGroupClose(b, pos, ere) {
          return Err;
        }
        pos := pos + if ere then 1 else 2;
        depth := depth - 1;
        return Ok(Group(idx, inner.value));
      }
      var c := b[pos];
      if c == '.' as int {
        pos := pos + 1;
        return Ok(Any);
      }
      if c == '[' as int {
        r := ParseClass();
        return;
      }
      if c == '\\' as int {
        if pos + 1 < |b| {
          var nx := b[pos + 1];
          pos := pos + 2;
          var ch := if !translate then nx
                    else if nx == 'n' as int then 10
                    else if nx == 't' as int then 9
                    else if nx == 'r' as int then 13
                    else nx;
          return Ok(Lit(ch));
        }
        pos := pos + 1;
        return Ok(Lit('\\' as int));
      }
      pos := pos + 1;
      return Ok(Lit(c));
    }

    /** Wraps `a0` in the quantifiers that follow it. `g` is where its groups were numbered from. */
    method ParseQuant(a0: Ast, ghost g: nat, ghost p: nat) returns (r: Result<Ast>)
      requires pos <= |b| && g <= gc && Good(a0, g, gc) && SpellsPiece(b, D(), p, pos, a0)
      modifies this`pos
      ensures old(pos) <= pos <= |b|
      ensures r.Ok? ==> Good(r.value, g, gc) && SpellsPiece(b, D(), p, pos, r.value) && NoQuantifier(b, D(), pos)
      ensures IsReading(r, ReadQuantifiers(b, D(), old(pos), gc, a0))
    {
      hide SpellsPiece, IntervalAt, Good, ReadQuantifiers, Quantified;
      var a := a0;
      ghost var d, reading := D(), ReadQuantifiers(b, D(), pos, gc, a0);
      StartQuantified(b, d, p, pos, a, g, gc);
      while pos < |b|
        invariant old(pos) <= pos <= |b| && Quantified(b, d, p, pos, a, g, gc, reading)
        decreases |b| - pos
      {
        if IsByte(b, pos, '*') {
          StarQuantified(b, d, p, pos, pos + 1, a, g, gc, reading);
          pos, a := pos + 1, Star(a);
          continue;
        }
        var escape := if ere then 0 else 1;
        if !ere && !(IsByte(b, pos, '\\') && pos + 1 < |b|) {
          break;
        }
        if IsByte(b, pos + escape, '+') {
          PlusQuantified(b, d, p, pos, pos + escape + 1, a, g, gc, reading);
          pos, a := pos + escape + 1, Plus(a);
          continue;
        }
        if IsByte(b, pos + escape, '?') {
          QuestQuantified(b, d, p, pos, pos + escape + 1, a, g, gc, reading);
          pos, a := pos + escape + 1, Quest(a);
          continue;
        }
        if IsByte(b, pos + escape, '{') {
          ghost var m := pos;
          var i := ParseInterval(pos + escape + 1, !ere);
          if i.Err? {
            BadQuantified(b, d, p, m, a, g, gc, reading);
            return Err;
          }
          if i.value.Some? {
            RepeatQuantified(b, d, p, m, pos, a, g, gc, reading, i.value.value.0, i.value.value.1);
            a := Repeat(a, i.value.value.0, i.value.value.1);
            continue;
          }
        }
        break;
      }
      EndQuantified(b, d, p, pos, a, g, gc, reading);
      return Ok(a);
    }

    /** `Ok(None)` when there is no well-formed interval at `start` and the brace is literal,
        `Err` when there is one with illegal bounds; otherwise the bounds, and `pos` behind it. */
    method ParseInterval(start: nat, bre: bool) returns (r: Result<Option<(nat, Option<nat>)>>)
      requires pos < start <= |b|
      modifies this`pos
      ensures match IntervalAt(b, start, bre)
              case NotInterval => r == Ok(None) && pos == old(pos)
              case BadBounds => r == Err
              case Bounds(mn, mx, end) => r == Ok(Some((mn, mx))) && pos == end
      ensures old(pos) <= pos <= |b|
      ensures r.Ok? && r.value.Some? ==> pos > old(pos)
    {
      var mn, mnOverflow, p := ReadNumber(b, start);
      if p == start {
        return Ok(None);
      }
      var mxOverflow := false;
      var mx: Option<nat>;
      if IsByte(b, p, ',') {
        p := p + 1;
        if DigitAt(b, p) {
          var m, o, q := ReadNumber(b, p);
          mx, mxOverflow, p := Some(m), o, q;
        } else {
          mx := None;
        }
      } else {
        mx := Some(mn);
      }
      if bre {
        if IsByte(b, p, '\\') && IsByte(b, p + 1, '}') {
          p := p + 2;
        } else {
          return Ok(None);
        }
      } else if IsByte(b, p, '}') {
        p := p + 1;
      } else {
        return Ok(None);
      }
      if mnOverflow || mxOverflow {
        return Err;
      }
      if mx.Some? && mn > mx.value {
        return Err;
      }
      pos := p;
      return Ok(Some((mn, mx)));
    }

    /** The end of a `[:`, `[.` or `[=` item that starts at `k`: where its closing pair is. */
    method FindPair(k0: nat, delim: Byte) returns (k: nat)
      requires k0 <= |b|
      ensures k == PairEnd(b, k0, delim)
      ensures k0 <= k
      ensures k + 1 < |b| ==> b[k] == delim && b[k + 1] == ']' as int
      ensures forall h :: k0 <= h < k && h + 1 < |b| ==> !(b[h] == delim && b[h + 1] == ']' as int)
    {
      k := k0;
      while k + 1 < |b| && !(b[k] == delim && b[k + 1] == ']' as int)
        invariant k0 <= k && PairEnd(b, k0, delim) == PairEnd(b, k, delim)
        invariant forall h :: k0 <= h < k && h + 1 < |b| ==> !(b[h] == delim && b[h + 1] == ']' as int)
        decreases |b| - k
      {
        k := k + 1;
      }
    }

    /** One item of a bracket expression. */
    method ParseMember() returns (r: Option<(set<Byte>, nat)>)
      requires pos < |b|
      ensures r == BracketItem(b, pos)
      ensures r.Some? ==> pos < r.value.1 <= |b|
    {
      hide NamedClass, PairEnd;
      var c := b[pos];
      if c == '[' as int && IsByte(b, pos + 1, ':') {
        var k := FindPair(pos + 2, ':' as int);
        if k + 1 >= |b| {
          return None;
        }
        var named := NamedClass(b[pos + 2..k]);
        return if named.None? then None else Some((named.value, k + 2));
      }
      if c == '[' as int && (IsByte(b, pos + 1, '.') || IsByte(b, pos + 1, '=')) {
        var k := FindPair(pos + 2, b[pos + 1]);
        return if k + 1 >= |b| then None else Some((Members(b[pos + 2..k]), k + 2));
      }
      if pos + 2 < |b| && b[pos + 1] == '-' as int && b[pos + 2] != ']' as int {
        var lo, hi := c, b[pos + 2];
        return Some((if lo <= hi then Range(lo, hi) else {lo, '-' as int, hi}, pos + 3));
      }
      return Some(({c}, pos + 1));
    }

    method ParseClass() returns (r: Result<Ast>)
      requires IsByte(b, pos, '[')
      modifies this`pos
      ensures old(pos) <= pos <= |b|
      ensures r.Ok? ==> r.value.Class? && pos > old(pos)
      ensures r.Ok? ==> SpellsBracket(b, old(pos), pos, r.value.members, r.value.negated)
      ensures var negated := IsByte(b, old(pos) + 1, '^');
        match ReadMembers(b, old(pos) + (if negated then 2 else 1), true, {})
        case None => r == Err
        case Some((members, p)) => r == Ok(Class(members, negated)) && pos == p
    {
      hide BracketItem, SpellsMembers;
      pos := pos + 1;
      var negate := false;
      if IsByte(b, pos, '^') {
        negate := true;
        pos := pos + 1;
      }
      var bm: set<Byte> := {};
      var first := true;
      ghost var from := pos;
      NoMembers(b, from);
      while true
        invariant old(pos) < from <= pos <= |b| && (first <==> pos == from) && SpellsMembers(b, from, pos, bm)
        invariant ReadMembers(b, pos, first, bm) == ReadMembers(b, from, true, {})
        decreases |b| - pos
      {
        if pos >= |b| {
          return Err;
        }
        if b[pos] == ']' as int && !first {
          pos := pos + 1;
          return Ok(Class(bm, negate));
        }
        var item := ParseMember();
        if item.None? {
          return Err;
        }
        OneMoreMember(b, from, pos, item.value.1, bm, item.value.0);
        bm, pos, first := bm + item.value.0, item.value.1, false;
      }
    }
  }

  lemma NoMembers(b: seq<Byte>, from: nat)
    ensures SpellsMembers(b, from, from, {})
  {
  }

  lemma OneMoreMember(b: seq<Byte>, from: nat, m: nat, to: nat, before: set<Byte>, added: set<Byte>)
    requires from <= m < |b| && SpellsMembers(b, from, m, before) && BracketItem(b, m) == Some((added, to)) && m < to
    requires IsByte(b, m, ']') ==> m == from
    ensures SpellsMembers(b, from, to, before + added)
  {
    hide BracketItem;
  }

  lemma OneMoreBranch(b: seq<Byte>, d: Dialect, p: nat, m: nat, q: nat, branches: seq<Ast>, a: Ast)
    requires branches != [] && SpellsBranches(b, d, p, m, branches) && IsAltOp(b, m, d.ere)
    requires SpellsConcat(b, d, m + Width(d), q, a)
    ensures SpellsBranches(b, d, p, q, branches + [a])
  {
    hide SpellsConcat;
    assert (branches + [a])[..|branches|] == branches;
  }

  lemma OneMoreItem(b: seq<Byte>, d: Dialect, p: nat, m: nat, q: nat, items: seq<Ast>, a: Ast)
    requires SpellsItems(b, d, p, m, items) && SpellsItem(b, d, m, q, a, items == [])
    ensures SpellsItems(b, d, p, q, items + [a])
  {
    hide SpellsItem;
    assert (items + [a])[..|items|] == items;
  }

  /** A piece is no anchor, no list and no alternation. */
  lemma NotAnchor(b: seq<Byte>, d: Dialect, p: nat, q: nat, a: Ast)
    requires SpellsPiece(b, d, p, q, a)
    ensures !a.Start? && !a.End? && !a.Empty? && !a.Concat? && !a.Alt?
  {
  }

  lemma NextItem(b: seq<Byte>, d: Dialect, pos: nat, groups: nat, depth: nat, items: seq<Ast>)
    requires pos < |b| && !IsAltOp(b, pos, d.ere) && !IsGroupClose(b, pos, d.ere)
    ensures ReadItems(b, d, pos, groups, depth, items) ==
            if StartAnchor(b, d, pos, items == []) then ReadItems(b, d, pos + 1, groups, depth, items + [Start])
            else if EndAnchor(b, d, pos) then ReadItems(b, d, pos + 1, groups, depth, items + [End])
            else
              match ReadAtom(b, d, pos, groups, depth)
              case Unreadable => Unreadable
              case Reading(x, q, h) =>
                match ReadQuantifiers(b, d, q, h, x)
                case Unreadable => Unreadable
                case Reading(a, p, g) => ReadItems(b, d, p, g, depth, items + [a])
  {
    hide ReadAtom, ReadQuantifiers;
  }

  lemma LastItem(b: seq<Byte>, d: Dialect, pos: nat, groups: nat, depth: nat, items: seq<Ast>)
    requires pos <= |b| && (pos >= |b| || IsAltOp(b, pos, d.ere) || IsGroupClose(b, pos, d.ere))
    ensures ReadItems(b, d, pos, groups, depth, items) == Reading(ItemsTree(items), pos, groups)
  {
  }

  lemma NoItems(b: seq<Byte>, d: Dialect, p: nat, g: nat)
    ensures SpellsItems(b, d, p, p, []) && GoodSeq([], g, g)
  {
  }

  lemma GoodAnchor(g: nat)
    ensures Good(Start, g, g) && Good(End, g, g)
  {
  }

  lemma AnchorItem(b: seq<Byte>, d: Dialect, p: nat, a: Ast, first: bool)
    requires p < |b| && !IsAltOp(b, p, d.ere) && !IsGroupClose(b, p, d.ere)
    requires (a.Start? && IsByte(b, p, '^') && (d.ere || first))
             || (a.End? && IsByte(b, p, '$') && DollarAnchor(b, d.ere, p))
    ensures SpellsItem(b, d, p, p + 1, a, first)
  {
  }

  lemma PieceItem(b: seq<Byte>, d: Dialect, p: nat, q: nat, a: Ast, first: bool)
    requires p < |b| && !IsAltOp(b, p, d.ere) && !IsGroupClose(b, p, d.ere)
    requires !(IsByte(b, p, '^') && (d.ere || first)) && !(IsByte(b, p, '$') && DollarAnchor(b, d.ere, p))
    requires SpellsPiece(b, d, p, q, a) && NoQuantifier(b, d, q)
    ensures SpellsItem(b, d, p, q, a, first)
  {
    hide NoQuantifier;
    NotAnchor(b, d, p, q, a);
  }

  lemma AtomPiece(b: seq<Byte>, d: Dialect, p: nat, q: nat, a: Ast)
    requires SpellsAtom(b, d, p, q, a)
    ensures SpellsPiece(b, d, p, q, a)
  {
  }

  lemma BoundsInRange(b: seq<Byte>, start: nat, bre: bool)
    requires start <= |b| && IntervalAt(b, start, bre).Bounds?
    ensures var i := IntervalAt(b, start, bre);
      i.min <= RE_DUP_MAX && (i.max.Some? ==> i.min <= i.max.value <= RE_DUP_MAX)
  {
  }

  /** `a` is a piece up to `pos`, and reading on from there gives `reading`. */
  ghost predicate Quantified(b: seq<Byte>, d: Dialect, p: nat, pos: nat, a: Ast, g: nat, h: nat, reading: Reading)
    requires pos <= |b|
  {
    Good(a, g, h) && SpellsPiece(b, d, p, pos, a) && ReadQuantifiers(b, d, pos, h, a) == reading
  }

  lemma StartQuantified(b: seq<Byte>, d: Dialect, p: nat, pos: nat, a: Ast, g: nat, h: nat)
    requires pos <= |b| && Good(a, g, h) && SpellsPiece(b, d, p, pos, a)
    ensures Quantified(b, d, p, pos, a, g, h, ReadQuantifiers(b, d, pos, h, a))
  {
  }

  lemma StarQuantified(b: seq<Byte>, d: Dialect, p: nat, m: nat, q: nat, a: Ast, g: nat, h: nat, reading: Reading)
    requires m < q == m + 1 <= |b| && Quantified(b, d, p, m, a, g, h, reading) && IsByte(b, m, '*')
    ensures Quantified(b, d, p, q, Star(a), g, h, reading)
  {
  }

  lemma PlusQuantified(b: seq<Byte>, d: Dialect, p: nat, m: nat, q: nat, a: Ast, g: nat, h: nat, reading: Reading)
    requires m < q == m + Width(d) <= |b| && Quantified(b, d, p, m, a, g, h, reading) && OperatorAt(b, d, m, '+')
    ensures Quantified(b, d, p, q, Plus(a), g, h, reading)
  {
  }

  lemma QuestQuantified(b: seq<Byte>, d: Dialect, p: nat, m: nat, q: nat, a: Ast, g: nat, h: nat, reading: Reading)
    requires m < q == m + Width(d) <= |b| && Quantified(b, d, p, m, a, g, h, reading) && OperatorAt(b, d, m, '?')
    ensures Quantified(b, d, p, q, Quest(a), g, h, reading)
  {
  }

  /** No other quantifier starts where an interval does. */
  lemma BraceOnly(b: seq<Byte>, d: Dialect, m: nat)
    requires OperatorAt(b, d, m, '{')
    ensures !IsByte(b, m, '*') && !OperatorAt(b, d, m, '+') && !OperatorAt(b, d, m, '?')
  {
  }

  lemma RepeatQuantified(b: seq<Byte>, d: Dialect, p: nat, m: nat, q: nat, a: Ast, g: nat, h: nat, reading: Reading,
                         mn: nat, mx: Option<nat>)
    requires m < q <= |b| && Quantified(b, d, p, m, a, g, h, reading) && IntervalFrom(b, d, m) == Bounds(mn, mx, q)
    ensures Quantified(b, d, p, q, Repeat(a, mn, mx), g, h, reading)
  {
    BraceOnly(b, d, m);
    BoundsInRange(b, m + Width(d), !d.ere);
    assert SpellsPiece(b, d, p, q, Repeat(a, mn, mx)) by {
      hide IntervalFrom;
    }
  }

  lemma BadQuantified(b: seq<Byte>, d: Dialect, p: nat, m: nat, a: Ast, g: nat, h: nat, reading: Reading)
    requires m <= |b| && Quantified(b, d, p, m, a, g, h, reading) && IntervalFrom(b, d, m) == BadBounds
    ensures reading == Unreadable
  {
    BraceOnly(b, d, m);
  }

  lemma EndQuantified(b: seq<Byte>, d: Dialect, p: nat, pos: nat, a: Ast, g: nat, h: nat, reading: Reading)
    requires pos <= |b| && Quantified(b, d, p, pos, a, g, h, reading) && NoQuantifier(b, d, pos)
    ensures reading == Reading(a, pos, h) && Good(a, g, h) && SpellsPiece(b, d, p, pos, a)
  {
  }

  lemma NotAlt(b: seq<Byte>, d: Dialect, p: nat, q: nat, a: Ast)
    requires SpellsConcat(b, d, p, q, a)
    ensures !a.Alt?
  {
    if a.Alt? {
      assert SpellsItem(b, d, p, q, a, true);
      assert SpellsPiece(b, d, p, q, a);
    }
  }

  lemma ItemsMakeConcat(b: seq<Byte>, d: Dialect, p: nat, q: nat, items: seq<Ast>)
    requires SpellsItems(b, d, p, q, items) && (q >= |b| || IsAltOp(b, q, d.ere) || IsGroupClose(b, q, d.ere))
    ensures SpellsConcat(b, d, p, q, if items == [] then Empty else if |items| == 1 then items[0] else Concat(items))
  {
    hide SpellsPiece;
    if |items| == 1 {
      assert items[..0] == [];
      assert SpellsItem(b, d, p, q, items[0], true);
      ItemPlain(b, d, p, q, items[0]);
    }
  }

  lemma ItemPlain(b: seq<Byte>, d: Dialect, p: nat, q: nat, a: Ast)
    requires SpellsItem(b, d, p, q, a, true)
    ensures !a.Empty? && !a.Concat?
  {
    if !a.Start? && !a.End? {
      NotAnchor(b, d, p, q, a);
    }
  }

  /** A well-formed tree whose groups are numbered from `g + 1` to `h`, left to right. */
  ghost predicate Good(a: Ast, g: nat, h: nat) {
    WellFormed(a) && Numbered(a, g) && h == g + GroupCount(a)
  }

  ghost predicate GoodSeq(items: seq<Ast>, g: nat, h: nat) {
    && WellFormedSeq(items) && NumberedSeq(items, g) && h == g + GroupCountSeq(items)
    && (|items| == 1 ==> Good(items[0], g, h))
  }

  lemma GoodOne(a: Ast, g: nat, h: nat)
    requires Good(a, g, h)
    ensures GoodSeq([a], g, h)
  {
    assert [a][..0] == [];
  }

  lemma GoodSnoc(items: seq<Ast>, a: Ast, g: nat, mid: nat, h: nat)
    requires GoodSeq(items, g, mid) && Good(a, mid, h)
    ensures GoodSeq(items + [a], g, h)
  {
    assert (items + [a])[..|items|] == items;
  }

  lemma GoodList(items: seq<Ast>, g: nat, h: nat)
    requires GoodSeq(items, g, h)
    ensures items == [] ==> Good(Empty, g, h)
    ensures |items| == 1 ==> Good(items[0], g, h)
    ensures items != [] ==> Good(Alt(items), g, h)
    ensures Good(Concat(items), g, h)
  {
  }
}
