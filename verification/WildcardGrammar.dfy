/** The scanners, which only count depth, agree with the recursive-descent grammar. */
module WildcardGrammar {
  import opened Wrappers
  import opened WildcardCards
  import opened WildcardScanners
  import opened WildcardPattern

  // ----- Sets

  lemma {:induction false} NextStateFindsClose(c: Cards, pat: string, p: nat, pend: nat)
    requires p <= pend <= |pat| && c.setEnabled
    ensures SetEnd(c, pat, p, pend, Next) ==
            match FindSetClose(c, pat, p, pend) case Some(k) => Returned(k + 1) case None => Threw
    decreases pend - p
  {
    if p < pend && pat[p] != c.setClose {
      NextStateFindsClose(c, pat, p + 1, pend);
    }
  }

  /** set_end stops just after the card that closes the set, and throws when there is none. */
  lemma SetEndFindsClose(c: Cards, pat: string, p: nat, pend: nat)
    requires p <= pend <= |pat| && c.setEnabled
    ensures SetEnd(c, pat, p, pend, NotOrFirst) ==
            match SetClose(c, pat, p, pend) case Some(k) => Returned(k + 1) case None => Threw
    ensures IsSet(c, pat, p, pend, NotOrFirst) <==> SetClose(c, pat, p, pend).Some?
  {
    IsSetIffSetEnd(c, pat, p, pend, NotOrFirst);
    if p < pend {
      NextStateFindsClose(c, pat, p + 1, pend);
      if p + 1 < pend {
        NextStateFindsClose(c, pat, p + 2, pend);
      }
    }
  }

  lemma {:induction false} NextInMatchesItems(c: Cards, w: string, s: nat, pat: string, p: nat, pend: nat)
    requires s < |w| && p <= pend <= |pat| && c.setEnabled
    requires FindSetClose(c, pat, p, pend).Some?
    ensures var r := MatchSet(c, w, s, pat, p, pend, NextIn);
            r.Returned? && r.value.res == (w[s] in pat[p..FindSetClose(c, pat, p, pend).value])
    ensures var r := MatchSet(c, w, s, pat, p, pend, NextOut);
            r.Returned? && r.value.res == (w[s] !in pat[p..FindSetClose(c, pat, p, pend).value])
    decreases pend - p
  {
    var k := FindSetClose(c, pat, p, pend).value;
    if pat[p] != c.setClose {
      NextInMatchesItems(c, w, s, pat, p + 1, pend);
      assert pat[p..k] == [pat[p]] + pat[p + 1..k];
    }
  }

  /** On a closed set match_set does not throw and succeeds exactly when there is a next character
      and it is one of the items, or none of them after the card that negates. */
  lemma MatchSetMatchesItems(c: Cards, w: string, s: nat, pat: string, p: nat, pend: nat)
    requires s <= |w| && p <= pend <= |pat| && c.setEnabled
    requires SetClose(c, pat, p, pend).Some?
    ensures var r := MatchSet(c, w, s, pat, p, pend, NotOrFirstIn);
            var first, close := SetFirst(c, pat, p, pend), SetClose(c, pat, p, pend).value;
            r.Returned? && r.value.res == (s < |w| && (w[s] in pat[first..close]) != (first != p))
  {
    var first, close := SetFirst(c, pat, p, pend), SetClose(c, pat, p, pend).value;
    if s < |w| {
      NextInMatchesItems(c, w, s, pat, first + 1, pend);
      assert w[s] in pat[first..close] <==> w[s] == pat[first] || w[s] in pat[first + 1..close] by {
        assert pat[first..close] == [pat[first]] + pat[first + 1..close];
      }
      if first == p {
        assert w[s] == pat[p] ||
               MatchSet(c, w, s, pat, p, pend, NotOrFirstIn) == MatchSet(c, w, s, pat, p + 1, pend, NextIn);
      } else {
        assert MatchSet(c, w, s, pat, p, pend, NotOrFirstIn) == MatchSet(c, w, s, pat, first, pend, FirstOut);
      }
    }
  }

  // ----- Alternatives

  /** Away from the cards of alternatives the scanners take the grammar's step. */
  lemma ScanElement(c: Cards, pat: string, p: nat, pend: nat, depth: int)
    requires p < pend <= |pat| && c.Distinct() && c.altEnabled
    ensures var e := ElementAt(c, pat, p, pend);
            && (e.AStar? || e.AChar? ==>
                  && AltEnd(c, pat, p, pend, AltNext, depth) == AltEnd(c, pat, e.next, pend, AltNext, depth)
                  && AltSubEnd(c, pat, p, pend, false, depth) == AltSubEnd(c, pat, e.next, pend, false, depth))
            && (e.StrayEscape? ==> AltEnd(c, pat, p, pend, AltNext, depth).Threw?)
            && (e.AltOpening? || e.BranchEnd? ==> pat[p] != c.escape && !SetHere(c, pat, p, pend))
  {
    if c.setEnabled && pat[p] == c.setOpen {
      SetEndFindsClose(c, pat, p + 1, pend);
    }
  }

  /** Stepping over a parsed branch changes no depth, and the scanners stop for the first time at
      the card that ends the branch; where the grammar finds no end, alt_end finds none. */
  lemma {:induction false} ScanBranch(c: Cards, pat: string, p: nat, pend: nat, depth: int)
    requires p <= pend <= |pat| && c.Distinct() && c.altEnabled && depth >= 1
    ensures match ParseBranch(c, pat, p, pend)
            case None => AltEnd(c, pat, p, pend, AltNext, depth).Threw?
            case Some((_, q)) =>
              && AltEnd(c, pat, p, pend, AltNext, depth) == AltEnd(c, pat, q, pend, AltNext, depth)
              && AltSubEnd(c, pat, p, pend, false, depth) == AltSubEnd(c, pat, q, pend, false, depth)
    decreases pend - p, 1
  {
    if p < pend {
      ScanElement(c, pat, p, pend, depth);
      match ElementAt(c, pat, p, pend) {
        case AStar(next) => ScanBranch(c, pat, next, pend, depth);
        case AChar(_, next) => ScanBranch(c, pat, next, pend, depth);
        case StrayEscape =>
        case BranchEnd =>
        case AltOpening => ScanOpening(c, pat, p, pend, depth);
      }
    }
  }

  lemma {:induction false} ScanOpening(c: Cards, pat: string, p: nat, pend: nat, depth: int)
    requires p < pend <= |pat| && c.Distinct() && c.altEnabled && depth >= 1
    requires ElementAt(c, pat, p, pend).AltOpening? && pat[p] != c.escape && !SetHere(c, pat, p, pend)
    ensures match ParseBranch(c, pat, p, pend)
            case None => AltEnd(c, pat, p, pend, AltNext, depth).Threw?
            case Some((_, q)) =>
              && AltEnd(c, pat, p, pend, AltNext, depth) == AltEnd(c, pat, q, pend, AltNext, depth)
              && AltSubEnd(c, pat, p, pend, false, depth) == AltSubEnd(c, pat, q, pend, false, depth)
    decreases pend - p, 0
  {
    ScanBranches(c, pat, p + 1, pend, depth + 1);
    ScanOpen(c, pat, p, pend, depth);
    match ParseBranches(c, pat, p + 1, pend) {
      case None =>
      case Some((bs, close)) =>
        assert ParseBranch(c, pat, p, pend) == Prepend(Alt(bs, Empty), ParseBranch(c, pat, close + 1, pend));
        ScanClose(c, pat, close, pend, depth + 1);
        ScanBranch(c, pat, close + 1, pend, depth);
    }
  }

  /** At an opening card the scanners go one level down. */
  lemma ScanOpen(c: Cards, pat: string, p: nat, pend: nat, depth: int)
    requires p < pend <= |pat| && c.Distinct() && c.altEnabled && ElementAt(c, pat, p, pend).AltOpening?
    requires pat[p] != c.escape && !SetHere(c, pat, p, pend)
    ensures AltEnd(c, pat, p, pend, AltNext, depth) == AltEnd(c, pat, p + 1, pend, AltNext, depth + 1)
    ensures AltSubEnd(c, pat, p, pend, false, depth) == AltSubEnd(c, pat, p + 1, pend, false, depth + 1)
  {
  }

  /** At a closing card below the outermost level the scanners go one level up. */
  lemma ScanClose(c: Cards, pat: string, p: nat, pend: nat, depth: int)
    requires p < pend <= |pat| && c.Distinct() && c.altEnabled && pat[p] == c.altClose && depth > 1
    ensures AltEnd(c, pat, p, pend, AltNext, depth) == AltEnd(c, pat, p + 1, pend, AltNext, depth - 1)
    ensures AltSubEnd(c, pat, p, pend, false, depth) == AltSubEnd(c, pat, p + 1, pend, false, depth - 1)
  {
    assert !SetHere(c, pat, p, pend);
  }

  lemma {:induction false} ScanBranches(c: Cards, pat: string, p: nat, pend: nat, depth: int)
    requires p <= pend <= |pat| && c.Distinct() && c.altEnabled && depth >= 1
    ensures match ParseBranches(c, pat, p, pend)
            case None => AltEnd(c, pat, p, pend, AltNext, depth).Threw?
            case Some((_, close)) =>
              && AltEnd(c, pat, p, pend, AltNext, depth) == AltEnd(c, pat, close, pend, AltNext, depth)
              && (depth > 1 ==>
                    AltSubEnd(c, pat, p, pend, false, depth) == AltSubEnd(c, pat, close, pend, false, depth))
    decreases pend - p, 2
  {
    ScanBranch(c, pat, p, pend, depth);
    match ParseBranch(c, pat, p, pend) {
      case None =>
      case Some((_, q)) =>
        if pat[q] != c.altClose {
          ScanElement(c, pat, q, pend, depth);
          ScanBranches(c, pat, q + 1, pend, depth);
        }
    }
  }

  /** After an opening card, is_alt holds exactly when the grammar closes the alternative, and
      alt_end then returns the position after its closing card. */
  lemma AltEndFindsClose(c: Cards, pat: string, p: nat, pend: nat)
    requires p <= pend <= |pat| && c.Distinct() && c.altEnabled
    ensures AltEnd(c, pat, p, pend, AltNext, 1) ==
            match ParseBranches(c, pat, p, pend) case Some((_, close)) => Returned(close + 1) case None => Threw
    ensures IsAlt(c, pat, p, pend, AltNext, 1) == Returned(ParseBranches(c, pat, p, pend).Some?)
  {
    IsAltIffAltEnd(c, pat, p, pend, AltNext, 1);
    ScanBranches(c, pat, p, pend, 1);
    match ParseBranches(c, pat, p, pend) {
      case None =>
      case Some((_, close)) => assert !SetHere(c, pat, close, pend);
    }
  }

  /** alt_sub_end cuts at the card that ends the branch. */
  lemma AltSubEndFindsBranchEnd(c: Cards, pat: string, p: nat, pend: nat)
    requires p <= pend <= |pat| && c.Distinct() && c.altEnabled
    requires ParseBranch(c, pat, p, pend).Some?
    ensures AltSubEnd(c, pat, p, pend, false, 1) == Returned(ParseBranch(c, pat, p, pend).value.1)
  {
    ScanBranch(c, pat, p, pend, 1);
    var q := ParseBranch(c, pat, p, pend).value.1;
    assert !SetHere(c, pat, q, pend);
  }

  // ----- A shorter end bound changes nothing

  lemma {:induction false} FindSetCloseShrinks(c: Cards, pat: string, p: nat, pend: nat, pend': nat)
    requires p <= pend' <= pend <= |pat|
    ensures match FindSetClose(c, pat, p, pend)
            case Some(k) => FindSetClose(c, pat, p, pend') == if k < pend' then Some(k) else None
            case None => FindSetClose(c, pat, p, pend') == None
    decreases pend - p
  {
    if p < pend' && pat[p] != c.setClose {
      FindSetCloseShrinks(c, pat, p + 1, pend, pend');
    }
  }

  lemma SetCloseShrinks(c: Cards, pat: string, p: nat, pend: nat, pend': nat)
    requires p <= pend' <= pend <= |pat|
    ensures match SetClose(c, pat, p, pend)
            case Some(k) => SetClose(c, pat, p, pend') == if k < pend' then Some(k) else None
            case None => SetClose(c, pat, p, pend') == None
    ensures forall k :: SetClose(c, pat, p, pend) == Some(k) && k < pend' ==>
              SetFirst(c, pat, p, pend') == SetFirst(c, pat, p, pend)
  {
    var first := SetFirst(c, pat, p, pend);
    if first < pend' {
      FindSetCloseShrinks(c, pat, first + 1, pend, pend');
    }
  }

  lemma ElementShrinks(c: Cards, pat: string, p: nat, pend: nat, pend': nat)
    requires p < pend' <= pend <= |pat|
    ensures var e := ElementAt(c, pat, p, pend);
            (e.AStar? || e.AChar? ==> e.next <= pend') && !e.StrayEscape? ==> ElementAt(c, pat, p, pend') == e
  {
    SetCloseShrinks(c, pat, p + 1, pend, pend');
  }

  lemma {:induction false} BranchShrinks(c: Cards, pat: string, p: nat, pend: nat, pend': nat)
    requires p <= pend' <= pend <= |pat|
    requires ParseBranch(c, pat, p, pend).Some? && ParseBranch(c, pat, p, pend).value.1 < pend'
    ensures ParseBranch(c, pat, p, pend') == ParseBranch(c, pat, p, pend)
    decreases pend - p, 1
  {
    ElementShrinks(c, pat, p, pend, pend');
    match ElementAt(c, pat, p, pend) {
      case AStar(next) => BranchShrinks(c, pat, next, pend, pend');
      case AChar(_, next) => BranchShrinks(c, pat, next, pend, pend');
      case BranchEnd =>
      case AltOpening => OpeningShrinks(c, pat, p, pend, pend');
    }
  }

  lemma {:induction false} OpeningShrinks(c: Cards, pat: string, p: nat, pend: nat, pend': nat)
    requires p < pend' <= pend <= |pat| && ElementAt(c, pat, p, pend).AltOpening?
    requires ElementAt(c, pat, p, pend').AltOpening?
    requires ParseBranch(c, pat, p, pend).Some? && ParseBranch(c, pat, p, pend).value.1 < pend'
    ensures ParseBranch(c, pat, p, pend') == ParseBranch(c, pat, p, pend)
    decreases pend - p, 0
  {
    var (bs, close) := ParseBranches(c, pat, p + 1, pend).value;
    assert ParseBranch(c, pat, p, pend) == Prepend(Alt(bs, Empty), ParseBranch(c, pat, close + 1, pend));
    BranchesShrink(c, pat, p + 1, pend, pend');
    assert ParseBranch(c, pat, p, pend') == Prepend(Alt(bs, Empty), ParseBranch(c, pat, close + 1, pend'));
    BranchShrinks(c, pat, close + 1, pend, pend');
  }

  lemma {:induction false} BranchesShrink(c: Cards, pat: string, p: nat, pend: nat, pend': nat)
    requires p <= pend' <= pend <= |pat|
    requires ParseBranches(c, pat, p, pend).Some? && ParseBranches(c, pat, p, pend).value.1 < pend'
    ensures ParseBranches(c, pat, p, pend') == ParseBranches(c, pat, p, pend)
    decreases pend - p, 2
  {
    BranchShrinks(c, pat, p, pend, pend');
    var q := ParseBranch(c, pat, p, pend).value.1;
    if pat[q] != c.altClose {
      BranchesShrink(c, pat, q + 1, pend, pend');
    }
  }

  /** Cut out of its alternative and read on its own, a branch is the same pattern. */
  lemma {:induction false} BranchStandsAlone(c: Cards, pat: string, p: nat, pend: nat)
    requires p <= pend <= |pat|
    requires ParseBranch(c, pat, p, pend).Some?
    ensures var (b, q) := ParseBranch(c, pat, p, pend).value; Parse(c, pat, p, q) == b
    decreases pend - p, 1
  {
    var q := ParseBranch(c, pat, p, pend).value.1;
    match ElementAt(c, pat, p, pend) {
      case BranchEnd =>
      case AStar(next) =>
        ElementShrinks(c, pat, p, pend, q);
        BranchStandsAlone(c, pat, next, pend);
      case AChar(_, next) =>
        ElementShrinks(c, pat, p, pend, q);
        BranchStandsAlone(c, pat, next, pend);
      case AltOpening =>
        ElementShrinks(c, pat, p, pend, q);
        OpeningStandsAlone(c, pat, p, pend, q);
    }
  }

  lemma {:induction false} OpeningStandsAlone(c: Cards, pat: string, p: nat, pend: nat, q: nat)
    requires p < pend <= |pat| && ElementAt(c, pat, p, pend).AltOpening?
    requires ParseBranch(c, pat, p, pend).Some? && q == ParseBranch(c, pat, p, pend).value.1
    requires p < q && ElementAt(c, pat, p, q).AltOpening?
    ensures Parse(c, pat, p, q) == ParseBranch(c, pat, p, pend).value.0
    decreases pend - p, 0
  {
    var (bs, close) := ParseBranches(c, pat, p + 1, pend).value;
    var b := ParseBranch(c, pat, close + 1, pend).value.0;
    assert ParseBranch(c, pat, p, pend) == Some((Alt(bs, b), q));
    BranchesShrink(c, pat, p + 1, pend, q);
    assert Parse(c, pat, p, q) == Alt(bs, Parse(c, pat, close + 1, q));
    BranchStandsAlone(c, pat, close + 1, pend);
  }
}
