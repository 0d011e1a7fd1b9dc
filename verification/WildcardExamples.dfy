/** What each of the cards of list_dir keeps, told for all names. */
module WildcardExamples {
  import opened Wrappers
  import opened WildcardCards
  import opened WildcardPattern
  import opened WildcardMatcher
  import opened WildcardTheorems

  /** The name is kept under the pattern. */
  predicate Keeps(pat: string, w: string) {
    var r := WholeMatch(EXTENDED_CARDS, w, pat);
    r.Returned? && r.value.res
  }

  lemma KeepsLanguage(pat: string, pt: Pat, w: string)
    requires Parse(EXTENDED_CARDS, pat, 0, |pat|) == pt && Rigid(pt)
    ensures Keeps(pat, w) <==> In(pt, w, 0, |w|)
  {
    RigidMatchIsExact(EXTENDED_CARDS, w, 0, pat, 0, |pat|);
  }

  lemma OneCharacter(cls: CharClass, w: string)
    ensures In(One(cls, Empty), w, 0, |w|) <==> |w| == 1 && cls.Accepts(w[0])
  {
  }

  lemma StarKeepsAll(w: string)
    ensures Keeps("*", w)
  {
    assert Parse(EXTENDED_CARDS, "*", 0, 1) == Star(Empty);
    KeepsLanguage("*", Star(Empty), w);
    assert In(Empty, w, |w|, |w|);
  }

  lemma SingleKeepsOne(w: string)
    ensures Keeps("?", w) <==> |w| == 1
  {
    assert Parse(EXTENDED_CARDS, "?", 0, 1) == One(AnyChar, Empty);
    KeepsLanguage("?", One(AnyChar, Empty), w);
    OneCharacter(AnyChar, w);
  }

  lemma EscapedStarKeepsStar(w: string)
    ensures Keeps("\\*", w) <==> w == "*"
  {
    assert Parse(EXTENDED_CARDS, "\\*", 0, 2) == One(Exactly('*'), Empty);
    KeepsLanguage("\\*", One(Exactly('*'), Empty), w);
    OneCharacter(Exactly('*'), w);
  }

  lemma SetKeepsItems(w: string)
    ensures Keeps("[ab]", w) <==> w == "a" || w == "b"
  {
    var c, pt := EXTENDED_CARDS, One(OneOf(false, "ab"), Empty);
    assert FindSetClose(c, "[ab]", 3, 4) == Some(3);
    assert SetClose(c, "[ab]", 1, 4) == Some(3);
    assert "[ab]"[1..3] == "ab";
    assert Parse(c, "[ab]", 0, 4) == pt;
    KeepsLanguage("[ab]", pt, w);
    OneCharacter(pt.cls, w);
  }

  lemma NegatedSetKeepsOthers(w: string)
    ensures Keeps("[!ab]", w) <==> |w| == 1 && w != "a" && w != "b"
  {
    var c, pt := EXTENDED_CARDS, One(OneOf(true, "ab"), Empty);
    assert FindSetClose(c, "[!ab]", 4, 5) == Some(4);
    assert FindSetClose(c, "[!ab]", 3, 5) == Some(4);
    assert SetClose(c, "[!ab]", 1, 5) == Some(4);
    assert "[!ab]"[2..4] == "ab";
    assert Parse(c, "[!ab]", 0, 5) == pt;
    KeepsLanguage("[!ab]", pt, w);
    OneCharacter(pt.cls, w);
  }

  lemma AlternativeParses()
    ensures Parse(EXTENDED_CARDS, "(a|b)", 0, 5) ==
            Alt(More(One(Exactly('a'), Empty), Last(One(Exactly('b'), Empty))), Empty)
  {
    var c, pat := EXTENDED_CARDS, "(a|b)";
    assert ElementAt(c, pat, 0, 5) == AltOpening;
    assert ElementAt(c, pat, 2, 5) == BranchEnd && ElementAt(c, pat, 4, 5) == BranchEnd;
    assert ParseBranch(c, pat, 2, 5) == Some((Empty, 2)) && ParseBranch(c, pat, 4, 5) == Some((Empty, 4));
    assert ParseBranch(c, pat, 1, 5) == Some((One(Exactly('a'), Empty), 2));
    assert ParseBranch(c, pat, 3, 5) == Some((One(Exactly('b'), Empty), 4));
    assert ParseBranches(c, pat, 3, 5) == Some((Last(One(Exactly('b'), Empty)), 4));
    assert ParseBranches(c, pat, 1, 5) == Some((More(One(Exactly('a'), Empty), Last(One(Exactly('b'), Empty))), 4));
    assert Parse(c, pat, 5, 5) == Empty;
  }

  lemma AlternativeKeepsBranches(w: string)
    ensures Keeps("(a|b)", w) <==> w == "a" || w == "b"
  {
    var bs := More(One(Exactly('a'), Empty), Last(One(Exactly('b'), Empty)));
    AlternativeParses();
    assert Rigid(Alt(bs, Empty));
    KeepsLanguage("(a|b)", Alt(bs, Empty), w);
    AlternativeIs(bs, w);
  }

  lemma AlternativeIs(bs: Branches, w: string)
    requires bs == More(One(Exactly('a'), Empty), Last(One(Exactly('b'), Empty)))
    ensures In(Alt(bs, Empty), w, 0, |w|) <==> w == "a" || w == "b"
  {
    if In(Alt(bs, Empty), w, 0, |w|) {
      var k :| 0 <= k <= |w| && InBranches(bs, w, 0, k) && In(Empty, w, k, |w|);
    }
    if w == "a" || w == "b" {
      assert InBranches(bs, w, 0, 1) && In(Empty, w, 1, 1);
    }
  }

  /** The cards of list_dir: * keeps every name, ? every name of one character, an escaped card that card, a set
      the names of one of its characters, a negated set those of any other, an alternative its branches. */
  lemma CardsMean(w: string)
    ensures Keeps("*", w) && (Keeps("?", w) <==> |w| == 1) && (Keeps("\\*", w) <==> w == "*")
    ensures Keeps("[ab]", w) <==> w == "a" || w == "b"
    ensures Keeps("[!ab]", w) <==> |w| == 1 && w != "a" && w != "b"
    ensures Keeps("(a|b)", w) <==> w == "a" || w == "b"
  {
    StarKeepsAll(w);
    SingleKeepsOne(w);
    EscapedStarKeepsStar(w);
    SetKeepsItems(w);
    NegatedSetKeepsOthers(w);
    AlternativeKeepsBranches(w);
  }
}
