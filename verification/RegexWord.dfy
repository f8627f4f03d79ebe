/** What `-w` misses. Threads are told apart by program counter and position only, so a thread
    whose match will fail the word test can shut out a later start that would have passed it. */
module RegexWord {
  import opened Bytes
  import opened RegexSyntax
  import opened RegexSearch
  import opened RegexTheorems
  import opened Regex

  const WORD: Mode := Mode(false, true)

  /** Any number of spaces, then an a. */
  function SpacesA(): Ast {
    Concat([Star(Lit(32)), Lit(97)])
  }

  /** The line "x a". */
  function LineXA(): Subject {
    Subject([120, 32, 97], false)
  }

  /** A match ends behind the a, and starts at the space or at the a. */
  lemma MatchesOf(s: nat, e: nat)
    ensures Denotes(SpacesA(), LineXA(), s, e) <==> e == 3 && (s == 1 || s == 2)
  {
    var l, items := LineXA(), [Star(Lit(32)), Lit(97)];
    assert items[..1] == [Star(Lit(32))] && items[..1][..0] == [];
    Spaces(s, 2);
    if Denotes(SpacesA(), l, s, e) {
      var k: nat :| DenotesSeq(items[..1], l, s, k) && Denotes(Lit(97), l, k, e);
      var first := items[..1];
      assert first[0] == Star(Lit(32)) && DenotesSeq(first, l, s, k);
      var h: nat :| DenotesSeq(first[..0], l, s, h) && Denotes(first[0], l, h, k);
    } else if s == 1 || s == 2 {
      assert DenotesSeq(items[..0], l, s, s);
      assert DenotesSeq(items[..1], l, s, 2);
      assert Denotes(Lit(97), l, 2, 3);
    }
  }

  /** Spaces up to the a can start at the space or take none. */
  lemma Spaces(s: nat, k: nat)
    requires k == 2
    ensures Denotes(Star(Lit(32)), LineXA(), s, k) <==> s == 1 || s == 2
  {
    var l, space := LineXA(), Lit(32);
    if s == 2 {
      assert Power(space, 0, l, 2, 2);
    } else if s == 1 {
      assert Power(space, 0, l, 1, 1) && Denotes(space, l, 1, 2);
      assert Power(space, 1, l, 1, 2);
    } else {
      forall n: nat ensures !Power(space, n, l, s, 2) {
      }
    }
  }

  /** With `-w`, a pattern for spaces and an a is not found in the line "x a", although the a alone
      is a match between word boundaries. */
  lemma WordMissed()
    ensures forall s: nat, e: nat :: !Findable(SpacesA(), LineXA(), WORD, 0, s, e)
    ensures Denotes(SpacesA(), LineXA(), 2, 3) && AcceptSpan(LineXA().text, 2, 3, WORD)
  {
    hide Denotes;
    forall s: nat, e: nat ensures !Findable(SpacesA(), LineXA(), WORD, 0, s, e) {
      MatchesOf(s, e);
      MatchesOf(1, 3);
    }
    MatchesOf(2, 3);
  }
}
