/** The order of the matcher's search, on pattern trees: Ends lists where the pattern can stop, the
    first tried first.  An alternative is cut: each branch contributes only its first stop.  The
    index-based matcher is proved to follow this list on every pattern text. */
module WildcardSearch {
  import opened Wrappers
  import opened WildcardCards
  import opened WildcardScanners
  import opened WildcardPattern
  import opened WildcardGrammar
  import opened WildcardMatcher

  ghost predicate Within(ends: seq<nat>, lo: nat, hi: nat) {
    forall k :: 0 <= k < |ends| ==> lo <= ends[k] <= hi
  }

  /** Every position at which the pattern can stop when started at i, in search order. */
  function Ends(pt: Pat, w: string, i: nat): (es: seq<nat>)
    requires i <= |w|
    ensures Within(es, i, |w|)
    decreases |w| - i, pt, 0
  {
    match pt
    case Empty => [i]
    case One(cls, rest) => if i < |w| && cls.Accepts(w[i]) then Ends(rest, w, i + 1) else []
    case Star(rest) => Ends(rest, w, i) + if i < |w| then Ends(pt, w, i + 1) else []
    case Alt(branches, rest) => EndsFrom(rest, w, i, FirstEnds(branches, w, i))
  }

  /** The first stop of each branch that matches at all, in branch order. */
  function FirstEnds(bs: Branches, w: string, i: nat): (es: seq<nat>)
    requires i <= |w|
    ensures Within(es, i, |w|)
    decreases |w| - i, bs, 0
  {
    match bs
    case Last(b) => Cut(Ends(b, w, i))
    case More(b, others) => Cut(Ends(b, w, i)) + FirstEnds(others, w, i)
  }

  function Cut(es: seq<nat>): seq<nat> {
    if es == [] then [] else [es[0]]
  }

  /** The stops of a pattern started at each of the given positions in turn. */
  function EndsFrom(rest: Pat, w: string, i: nat, starts: seq<nat>): (es: seq<nat>)
    requires i <= |w| && Within(starts, i, |w|)
    ensures Within(es, i, |w|)
    decreases |w| - i, rest, |starts|
  {
    if starts == [] then []
    else
      Ends(rest, w, starts[0]) + EndsFrom(rest, w, i, starts[1..])
  }

  /** What the matcher has to return for this list of stops: in partial mode the first of them,
      otherwise the end of the sequence if it is among them. */
  ghost predicate Follows(r: Outcome<MatchResult>, es: seq<nat>, w: string, pend: nat, partial: bool) {
    && r.Returned?
    && (r.value.res <==> if partial then es != [] else |w| in es)
    && (r.value.res ==> r.value.p == pend && r.value.s == if partial then es[0] else |w|)
  }

  /** Appending the stops of a second attempt. */
  lemma FollowsEither(r1: Outcome<MatchResult>, r2: Outcome<MatchResult>, es1: seq<nat>, es2: seq<nat>,
                      w: string, pend: nat, partial: bool)
    requires Follows(r1, es1, w, pend, partial)
    requires Follows(r2, es2, w, pend, partial)
    ensures Follows(if r1.value.res then r1 else r2, es1 + es2, w, pend, partial)
  {
  }

  lemma {:induction false} EndsFromAppend(rest: Pat, w: string, i: nat, xs: seq<nat>, ys: seq<nat>)
    requires i <= |w| && Within(xs, i, |w|) && Within(ys, i, |w|)
    ensures EndsFrom(rest, w, i, xs + ys) == EndsFrom(rest, w, i, xs) + EndsFrom(rest, w, i, ys)
  {
    if xs == [] {
      assert xs + ys == ys;
    } else {
      var first, others := Ends(rest, w, xs[0]), xs[1..];
      EndsFromAppend(rest, w, i, others, ys);
      assert (xs + ys)[1..] == others + ys;
      assert first + (EndsFrom(rest, w, i, others) + EndsFrom(rest, w, i, ys)) ==
             (first + EndsFrom(rest, w, i, others)) + EndsFrom(rest, w, i, ys);
    }
  }

  lemma EndsFromFirst(rest: Pat, w: string, i: nat, es: seq<nat>)
    requires i <= |w| && Within(es, i, |w|)
    ensures EndsFrom(rest, w, i, Cut(es)) == if es == [] then [] else Ends(rest, w, es[0])
  {
    if es != [] {
      assert Cut(es)[1..] == [];
      assert EndsFrom(rest, w, i, []) == [];
    }
  }

  /** One step of the matcher at an element that takes exactly one character. */
  lemma MatchSet(c: Cards, w: string, s: nat, pat: string, p: nat, pend: nat, partial: bool)
    requires s <= |w| && p < pend <= |pat| && c.Distinct()
    requires c.setEnabled && pat[p] == c.setOpen && SetClose(c, pat, p + 1, pend).Some?
    ensures ElementAt(c, pat, p, pend).AChar?
    ensures var AChar(cls, next) := ElementAt(c, pat, p, pend);
            var r := Match(c, w, s, pat, p, pend, partial, false);
            if s < |w| && cls.Accepts(w[s]) then r == Match(c, w, s + 1, pat, next, pend, partial, false)
            else r.Returned? && !r.value.res
  {
    SetEndFindsClose(c, pat, p + 1, pend);
    MatchSetMatchesItems(c, w, s, pat, p + 1, pend);
  }

  lemma MatchChar(c: Cards, w: string, s: nat, pat: string, p: nat, pend: nat, partial: bool)
    requires s <= |w| && p < pend <= |pat| && c.Distinct()
    requires ElementAt(c, pat, p, pend).AChar?
    ensures var AChar(cls, next) := ElementAt(c, pat, p, pend);
            var r := Match(c, w, s, pat, p, pend, partial, false);
            if s < |w| && cls.Accepts(w[s]) then r == Match(c, w, s + 1, pat, next, pend, partial, false)
            else r.Returned? && !r.value.res
  {
    if c.setEnabled && pat[p] == c.setOpen {
      SetEndFindsClose(c, pat, p + 1, pend);
      if SetClose(c, pat, p + 1, pend).Some? {
        MatchSet(c, w, s, pat, p, pend, partial);
      }
    }
  }

  lemma MatchAtAlt(c: Cards, w: string, s: nat, pat: string, p: nat, pend: nat, partial: bool)
    requires s <= |w| && p < pend <= |pat| && c.Distinct()
    requires ElementAt(c, pat, p, pend).AltOpening?
    requires AltEnd(c, pat, p + 1, pend, AltNext, 1).Returned?
    requires AltSubEnd(c, pat, p + 1, AltEnd(c, pat, p + 1, pend, AltNext, 1).value, false, 1).Returned?
    ensures var altEnd := AltEnd(c, pat, p + 1, pend, AltNext, 1).value;
            var subEnd := AltSubEnd(c, pat, p + 1, altEnd, false, 1).value;
            Match(c, w, s, pat, p, pend, partial, false) ==
            MatchAlt(c, w, s, pat, p + 1, subEnd, altEnd, pend, partial)
  {
    IsAltIffAltEnd(c, pat, p + 1, pend, AltNext, 1);
    if c.setEnabled {
      SetEndFindsClose(c, pat, p + 1, pend);
    }
  }

  /** One step of the matcher at the opening card of an alternative that closes before pend. */
  lemma MatchOpening(c: Cards, w: string, s: nat, pat: string, p: nat, pend: nat, partial: bool)
    requires s <= |w| && p < pend <= |pat| && c.Distinct()
    requires ElementAt(c, pat, p, pend).AltOpening? && ParseBranches(c, pat, p + 1, pend).Some?
    ensures var p2 := ParseBranches(c, pat, p + 1, pend).value.1 + 1;
            && ParseBranches(c, pat, p + 1, p2) == ParseBranches(c, pat, p + 1, pend)
            && ParseBranch(c, pat, p + 1, p2).Some?
            && Match(c, w, s, pat, p, pend, partial, false) ==
               MatchAlt(c, w, s, pat, p + 1, ParseBranch(c, pat, p + 1, p2).value.1, p2, pend, partial)
  {
    var p2 := ParseBranches(c, pat, p + 1, pend).value.1 + 1;
    BranchesShrink(c, pat, p + 1, pend, p2);
    AltEndFindsClose(c, pat, p + 1, pend);
    AltSubEndFindsBranchEnd(c, pat, p + 1, p2);
    MatchAtAlt(c, w, s, pat, p, pend, partial);
  }

  /** A card of alternatives that opens or ends none is ordinary text. */
  lemma MatchStrayAltCard(c: Cards, w: string, s: nat, pat: string, p: nat, pend: nat, partial: bool)
    requires s <= |w| && p < pend <= |pat| && c.Distinct()
    requires var e := ElementAt(c, pat, p, pend);
             e.BranchEnd? || (e.AltOpening? && ParseBranches(c, pat, p + 1, pend).None?)
    ensures var r := Match(c, w, s, pat, p, pend, partial, false);
            if s < |w| && w[s] == pat[p] then r == Match(c, w, s + 1, pat, p + 1, pend, partial, false)
            else r.Returned? && !r.value.res
  {
    assert !SetHere(c, pat, p, pend);
    AltEndFindsClose(c, pat, p + 1, pend);
  }

  /** On every sequence and pattern text the matcher terminates without throwing, and follows the
      list of stops of the parsed pattern. */
  lemma {:induction false} MatchFollowsEnds(c: Cards, w: string, s: nat, pat: string, p: nat, pend: nat, partial: bool)
    requires s <= |w| && p <= pend <= |pat| && c.Distinct()
    ensures Follows(Match(c, w, s, pat, p, pend, partial, false), Ends(Parse(c, pat, p, pend), w, s), w, pend, partial)
    decreases |w| - s, pend - p, 2
  {
    if p < pend {
      match ElementAt(c, pat, p, pend) {
        case AStar(next) => MatchFollowsStar(c, w, s, pat, p, pend, partial);
        case AChar(cls, next) =>
          MatchChar(c, w, s, pat, p, pend, partial);
          if s < |w| && cls.Accepts(w[s]) {
            MatchFollowsEnds(c, w, s + 1, pat, next, pend, partial);
          }
        case StrayEscape =>
        case BranchEnd => MatchFollowsStray(c, w, s, pat, p, pend, partial);
        case AltOpening => MatchFollowsAltCard(c, w, s, pat, p, pend, partial);
      }
    }
  }

  lemma {:induction false} MatchFollowsStar(c: Cards, w: string, s: nat, pat: string, p: nat, pend: nat, partial: bool)
    requires s <= |w| && p < pend <= |pat| && c.Distinct()
    requires ElementAt(c, pat, p, pend).AStar?
    ensures Follows(Match(c, w, s, pat, p, pend, partial, false), Ends(Parse(c, pat, p, pend), w, s), w, pend, partial)
    decreases |w| - s, pend - p, 0
  {
    var r1 := Match(c, w, s, pat, p + 1, pend, partial, false);
    MatchFollowsEnds(c, w, s, pat, p + 1, pend, partial);
    MatchStar(c, w, s, pat, p, pend, partial);
    if s < |w| {
      MatchFollowsEnds(c, w, s + 1, pat, p, pend, partial);
      var r2 := Match(c, w, s + 1, pat, p, pend, partial, false);
      StarFollows(r1, r2, Parse(c, pat, p + 1, pend), w, s, pend, partial);
    } else {
      assert Ends(Star(Parse(c, pat, p + 1, pend)), w, s) == Ends(Parse(c, pat, p + 1, pend), w, s);
    }
  }

  /** One step of the matcher at a star, and what the pattern is there. */
  lemma MatchStar(c: Cards, w: string, s: nat, pat: string, p: nat, pend: nat, partial: bool)
    requires s <= |w| && p < pend <= |pat|
    requires ElementAt(c, pat, p, pend).AStar?
    requires Match(c, w, s, pat, p + 1, pend, partial, false).Returned?
    ensures Parse(c, pat, p, pend) == Star(Parse(c, pat, p + 1, pend))
    ensures var r1 := Match(c, w, s, pat, p + 1, pend, partial, false);
            Match(c, w, s, pat, p, pend, partial, false) ==
            if r1.value.res then r1
            else if s == |w| then Returned(MatchResult(false, s, p))
            else Match(c, w, s + 1, pat, p, pend, partial, false)
  {
  }

  lemma StarFollows(r1: Outcome<MatchResult>, r2: Outcome<MatchResult>, rest: Pat, w: string, s: nat, pend: nat,
                    partial: bool)
    requires s < |w|
    requires Follows(r1, Ends(rest, w, s), w, pend, partial)
    requires Follows(r2, Ends(Star(rest), w, s + 1), w, pend, partial)
    ensures Follows(if r1.value.res then r1 else r2, Ends(Star(rest), w, s), w, pend, partial)
  {
    FollowsEither(r1, r2, Ends(rest, w, s), Ends(Star(rest), w, s + 1), w, pend, partial);
  }

  lemma {:induction false} MatchFollowsAltCard(c: Cards, w: string, s: nat, pat: string, p: nat, pend: nat,
                                               partial: bool)
    requires s <= |w| && p < pend <= |pat| && c.Distinct() && ElementAt(c, pat, p, pend).AltOpening?
    ensures Follows(Match(c, w, s, pat, p, pend, partial, false), Ends(Parse(c, pat, p, pend), w, s), w, pend, partial)
    decreases |w| - s, pend - p, 1
  {
    if ParseBranches(c, pat, p + 1, pend).Some? {
      MatchFollowsOpening(c, w, s, pat, p, pend, partial);
    } else {
      MatchFollowsStray(c, w, s, pat, p, pend, partial);
    }
  }

  lemma {:induction false} MatchFollowsOpening(c: Cards, w: string, s: nat, pat: string, p: nat, pend: nat,
                                               partial: bool)
    requires s <= |w| && p < pend <= |pat| && c.Distinct()
    requires ElementAt(c, pat, p, pend).AltOpening? && ParseBranches(c, pat, p + 1, pend).Some?
    ensures Follows(Match(c, w, s, pat, p, pend, partial, false), Ends(Parse(c, pat, p, pend), w, s), w, pend, partial)
    decreases |w| - s, pend - p, 0
  {
    var (bs, close) := ParseBranches(c, pat, p + 1, pend).value;
    assert Parse(c, pat, p, pend) == Alt(bs, Parse(c, pat, close + 1, pend));
    MatchOpening(c, w, s, pat, p, pend, partial);
    MatchAltFollowsEnds(c, w, s, pat, p + 1, close + 1, pend, partial);
  }

  lemma {:induction false} MatchFollowsStray(c: Cards, w: string, s: nat, pat: string, p: nat, pend: nat, partial: bool)
    requires s <= |w| && p < pend <= |pat| && c.Distinct()
    requires var e := ElementAt(c, pat, p, pend);
             e.BranchEnd? || (e.AltOpening? && ParseBranches(c, pat, p + 1, pend).None?)
    ensures Follows(Match(c, w, s, pat, p, pend, partial, false), Ends(Parse(c, pat, p, pend), w, s), w, pend, partial)
    decreases |w| - s, pend - p, 0
  {
    MatchStrayAltCard(c, w, s, pat, p, pend, partial);
    if s < |w| && w[s] == pat[p] {
      MatchFollowsEnds(c, w, s + 1, pat, p + 1, pend, partial);
    }
  }

  /** The first branch of an alternative and then the rest of the pattern. */
  lemma {:induction false} MatchFirstBranch(c: Cards, w: string, s: nat, pat: string, p1: nat, p2: nat, p2end: nat,
                                            partial: bool)
    requires s <= |w| && p1 < p2 <= p2end <= |pat| && c.Distinct()
    requires ParseBranch(c, pat, p1, p2).Some?
    ensures var (b, p1end) := ParseBranch(c, pat, p1, p2).value;
            var r1 := Match(c, w, s, pat, p1, p1end, true, false);
            && r1.Returned?
            && Follows(if r1.value.res then Match(c, w, r1.value.s, pat, p2, p2end, partial, false) else r1,
                       EndsFrom(Parse(c, pat, p2, p2end), w, s, Cut(Ends(b, w, s))), w, p2end, partial)
    decreases |w| - s, p2end - p1, 0
  {
    var (b, p1end) := ParseBranch(c, pat, p1, p2).value;
    BranchStandsAlone(c, pat, p1, p2);
    MatchFollowsEnds(c, w, s, pat, p1, p1end, true);
    EndsFromFirst(Parse(c, pat, p2, p2end), w, s, Ends(b, w, s));
    if Ends(b, w, s) != [] {
      MatchFollowsEnds(c, w, Ends(b, w, s)[0], pat, p2, p2end, partial);
    }
  }

  lemma {:induction false} MatchAltFollowsEnds(c: Cards, w: string, s: nat, pat: string, p1: nat, p2: nat,
                                               p2end: nat, partial: bool)
    requires s <= |w| && p1 < p2 <= p2end <= |pat| && c.Distinct() && c.altEnabled
    requires ParseBranches(c, pat, p1, p2).Some? && ParseBranches(c, pat, p1, p2).value.1 == p2 - 1
    ensures ParseBranch(c, pat, p1, p2).Some?
    ensures var (_, p1end) := ParseBranch(c, pat, p1, p2).value;
            var (bs, _) := ParseBranches(c, pat, p1, p2).value;
            Follows(MatchAlt(c, w, s, pat, p1, p1end, p2, p2end, partial),
                    EndsFrom(Parse(c, pat, p2, p2end), w, s, FirstEnds(bs, w, s)), w, p2end, partial)
    decreases |w| - s, p2end - p1, 1
  {
    var (b, p1end) := ParseBranch(c, pat, p1, p2).value;
    var (bs, _) := ParseBranches(c, pat, p1, p2).value;
    MatchFirstBranch(c, w, s, pat, p1, p2, p2end, partial);
    var r1 := Match(c, w, s, pat, p1, p1end, true, false);
    var r2 := if r1.value.res then Match(c, w, r1.value.s, pat, p2, p2end, partial, false) else r1;
    if pat[p1end] == c.altClose {
      assert bs == Last(b);
      MatchAltLast(c, w, s, pat, p1, p1end, p2, p2end, partial);
    } else {
      var (others, _) := ParseBranches(c, pat, p1end + 1, p2).value;
      assert bs == More(b, others);
      AltSubEndFindsBranchEnd(c, pat, p1end + 1, p2);
      MatchAltFollowsEnds(c, w, s, pat, p1end + 1, p2, p2end, partial);
      var p2end' := ParseBranch(c, pat, p1end + 1, p2).value.1;
      MatchAltMore(c, w, s, pat, p1, p1end, p2end', p2, p2end, partial);
      BranchesFollow(r2, MatchAlt(c, w, s, pat, p1end + 1, p2end', p2, p2end, partial), b, others,
                     Parse(c, pat, p2, p2end), w, s, p2end, partial);
    }
  }

  lemma MatchAltLast(c: Cards, w: string, s: nat, pat: string, p1: nat, p1end: nat, p2: nat, p2end: nat, partial: bool)
    requires s <= |w| && p1 <= p1end && p1end + 1 == p2 <= p2end <= |pat|
    requires Match(c, w, s, pat, p1, p1end, true, false).Returned?
    ensures var r1 := Match(c, w, s, pat, p1, p1end, true, false);
            var r2 := if r1.value.res then Match(c, w, r1.value.s, pat, p2, p2end, partial, false) else r1;
            r2.Returned? ==>
              MatchAlt(c, w, s, pat, p1, p1end, p2, p2end, partial) ==
              if r2.value.res then r2 else Returned(MatchResult(false, s, p1end))
  {
  }

  lemma MatchAltMore(c: Cards, w: string, s: nat, pat: string, p1: nat, p1end: nat, subEnd: nat, p2: nat, p2end: nat,
                     partial: bool)
    requires s <= |w| && p1 <= p1end && p1end + 1 < p2 <= p2end <= |pat|
    requires Match(c, w, s, pat, p1, p1end, true, false).Returned?
    requires AltSubEnd(c, pat, p1end + 1, p2, false, 1) == Returned(subEnd)
    ensures var r1 := Match(c, w, s, pat, p1, p1end, true, false);
            var r2 := if r1.value.res then Match(c, w, r1.value.s, pat, p2, p2end, partial, false) else r1;
            r2.Returned? ==>
              MatchAlt(c, w, s, pat, p1, p1end, p2, p2end, partial) ==
              if r2.value.res then r2 else MatchAlt(c, w, s, pat, p1end + 1, subEnd, p2, p2end, partial)
  {
  }

  lemma BranchesFollow(r2: Outcome<MatchResult>, r3: Outcome<MatchResult>, b: Pat, others: Branches, rest: Pat,
                       w: string, s: nat, pend: nat, partial: bool)
    requires s <= |w|
    requires Follows(r2, EndsFrom(rest, w, s, Cut(Ends(b, w, s))), w, pend, partial)
    requires Follows(r3, EndsFrom(rest, w, s, FirstEnds(others, w, s)), w, pend, partial)
    ensures Follows(if r2.value.res then r2 else r3,
                    EndsFrom(rest, w, s, FirstEnds(More(b, others), w, s)), w, pend, partial)
  {
    EndsFromAppend(rest, w, s, Cut(Ends(b, w, s)), FirstEnds(others, w, s));
    FollowsEither(r2, r3, EndsFrom(rest, w, s, Cut(Ends(b, w, s))), EndsFrom(rest, w, s, FirstEnds(others, w, s)),
                  w, pend, partial);
  }
}
