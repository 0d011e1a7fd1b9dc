/** What the matcher decides, in terms of the pattern's language. */
module WildcardTheorems {
  import opened Wrappers
  import opened WildcardCards
  import opened WildcardPattern
  import opened WildcardMatcher
  import opened WildcardSearch

  // ----- Soundness, for every pattern

  lemma {:induction false} EndsAreInLanguage(pt: Pat, w: string, i: nat, e: nat)
    requires i <= |w| && e in Ends(pt, w, i)
    ensures i <= e <= |w| && In(pt, w, i, e)
    decreases |w| - i, pt, 0
  {
    match pt
    case Empty =>
    case One(cls, rest) => EndsAreInLanguage(rest, w, i + 1, e);
    case Star(rest) =>
      if e in Ends(rest, w, i) {
        EndsAreInLanguage(rest, w, i, e);
      } else {
        EndsAreInLanguage(pt, w, i + 1, e);
      }
    case Alt(branches, rest) =>
      var starts := FirstEnds(branches, w, i);
      var k := EndsFromAreInLanguage(rest, w, i, starts, e);
      FirstEndsAreInLanguage(branches, w, i, k);
  }

  lemma {:induction false} EndsFromAreInLanguage(rest: Pat, w: string, i: nat, starts: seq<nat>, e: nat)
    returns (k: nat)
    requires i <= |w| && Within(starts, i, |w|) && e in EndsFrom(rest, w, i, starts)
    ensures k in starts && k <= e <= |w| && In(rest, w, k, e)
    decreases |w| - i, rest, |starts|
  {
    if e in Ends(rest, w, starts[0]) {
      k := starts[0];
      EndsAreInLanguage(rest, w, k, e);
    } else {
      k := EndsFromAreInLanguage(rest, w, i, starts[1..], e);
    }
  }

  lemma {:induction false} FirstEndsAreInLanguage(bs: Branches, w: string, i: nat, e: nat)
    requires i <= |w| && e in FirstEnds(bs, w, i)
    ensures i <= e <= |w| && InBranches(bs, w, i, e)
    decreases |w| - i, bs, 0
  {
    var b := if bs.Last? then bs.only else bs.first;
    if e in Cut(Ends(b, w, i)) {
      EndsAreInLanguage(b, w, i, e);
    } else {
      FirstEndsAreInLanguage(bs.others, w, i, e);
    }
  }

  /** Whenever a match succeeds, what it consumed is a word of the pattern's language; the whole
      pattern is used, and outside partial mode the whole sequence too.  No call throws. */
  lemma MatchIsSound(c: Cards, w: string, s: nat, pat: string, p: nat, pend: nat, partial: bool)
    requires s <= |w| && p <= pend <= |pat| && c.Distinct()
    ensures var r := Match(c, w, s, pat, p, pend, partial, false);
            && r.Returned?
            && (r.value.res ==>
                  && s <= r.value.s <= |w| && r.value.p == pend
                  && In(Parse(c, pat, p, pend), w, s, r.value.s)
                  && (!partial ==> r.value.s == |w|))
  {
    MatchFollowsEnds(c, w, s, pat, p, pend, partial);
    var r := Match(c, w, s, pat, p, pend, partial, false);
    if r.value.res {
      EndsAreInLanguage(Parse(c, pat, p, pend), w, s, r.value.s);
    }
  }

  // ----- Exactness

  /** The length that all words of the pattern share, when the pattern shows one: no star, and all
      branches of an alternative equally long. */
  function Width(pt: Pat): Option<nat>
    decreases pt
  {
    match pt
    case Empty => Some(0)
    case One(_, rest) => Plus(Some(1), Width(rest))
    case Star(_) => None
    case Alt(branches, rest) => Plus(BranchesWidth(branches), Width(rest))
  }

  function BranchesWidth(bs: Branches): Option<nat>
    decreases bs
  {
    match bs
    case Last(b) => Width(b)
    case More(b, others) => if Width(b) == BranchesWidth(others) then Width(b) else None
  }

  function Plus(x: Option<nat>, y: Option<nat>): Option<nat> {
    if x.Some? && y.Some? then Some(x.value + y.value) else None
  }

  /** Every branch of every alternative of the pattern shows a width.  Branches of one alternative
      may differ in width.  Patterns without alternatives are included. */
  predicate Rigid(pt: Pat)
    decreases pt
  {
    match pt
    case Empty => true
    case One(_, rest) => Rigid(rest)
    case Star(rest) => Rigid(rest)
    case Alt(branches, rest) => AllWidths(branches) && Rigid(rest)
  }

  predicate AllWidths(bs: Branches)
    decreases bs
  {
    match bs
    case Last(b) => Width(b).Some?
    case More(b, others) => Width(b).Some? && AllWidths(others)
  }

  lemma {:induction false} WidthFixesEnd(pt: Pat, w: string, i: nat, j: nat)
    requires i <= j <= |w| && In(pt, w, i, j) && Width(pt).Some?
    ensures j == i + Width(pt).value
    decreases pt
  {
    match pt
    case Empty =>
    case One(_, rest) => WidthFixesEnd(rest, w, i + 1, j);
    case Alt(branches, rest) =>
      var k :| i <= k <= j && InBranches(branches, w, i, k) && In(rest, w, k, j);
      BranchesWidthFixesEnd(branches, w, i, k);
      WidthFixesEnd(rest, w, k, j);
  }

  lemma {:induction false} BranchesWidthFixesEnd(bs: Branches, w: string, i: nat, j: nat)
    requires i <= j <= |w| && InBranches(bs, w, i, j) && BranchesWidth(bs).Some?
    ensures j == i + BranchesWidth(bs).value
    decreases bs
  {
    var b := if bs.Last? then bs.only else bs.first;
    if In(b, w, i, j) {
      WidthFixesEnd(b, w, i, j);
    } else {
      BranchesWidthFixesEnd(bs.others, w, i, j);
    }
  }

  lemma {:induction false} WidthIsRigid(pt: Pat)
    requires Width(pt).Some?
    ensures Rigid(pt)
    decreases pt
  {
    match pt
    case Empty =>
    case One(_, rest) => WidthIsRigid(rest);
    case Alt(branches, rest) =>
      BranchesWidthIsAllWidths(branches);
      WidthIsRigid(rest);
  }

  lemma {:induction false} BranchesWidthIsAllWidths(bs: Branches)
    requires BranchesWidth(bs).Some?
    ensures AllWidths(bs)
    decreases bs
  {
    if bs.More? {
      BranchesWidthIsAllWidths(bs.others);
    }
  }

  /** The search of a rigid pattern misses no word of its language. */
  lemma {:induction false} RigidSearchIsComplete(pt: Pat, w: string, i: nat, j: nat)
    requires i <= j <= |w| && Rigid(pt) && In(pt, w, i, j)
    ensures j in Ends(pt, w, i)
    decreases |w| - i, pt, 0
  {
    match pt
    case Empty =>
    case One(cls, rest) => RigidSearchIsComplete(rest, w, i + 1, j);
    case Star(rest) =>
      var k :| i <= k <= j && In(rest, w, k, j);
      if k == i {
        RigidSearchIsComplete(rest, w, i, j);
      } else {
        RigidSearchIsComplete(pt, w, i + 1, j);
      }
    case Alt(branches, rest) =>
      var k :| i <= k <= j && InBranches(branches, w, i, k) && In(rest, w, k, j);
      RigidBranchesComplete(branches, w, i, k);
      RigidSearchIsComplete(rest, w, k, j);
      EndsFromCollects(rest, w, i, FirstEnds(branches, w, i), k, j);
  }

  lemma {:induction false} RigidBranchesComplete(bs: Branches, w: string, i: nat, j: nat)
    requires i <= j <= |w| && AllWidths(bs) && InBranches(bs, w, i, j)
    ensures j in FirstEnds(bs, w, i)
    decreases |w| - i, bs, 0
  {
    var b := if bs.Last? then bs.only else bs.first;
    if In(b, w, i, j) {
      WidthIsRigid(b);
      RigidSearchIsComplete(b, w, i, j);
      EndsAreInLanguage(b, w, i, Ends(b, w, i)[0]);
      WidthFixesEnd(b, w, i, Ends(b, w, i)[0]);
      WidthFixesEnd(b, w, i, j);
    } else {
      RigidBranchesComplete(bs.others, w, i, j);
    }
  }

  lemma {:induction false} EndsFromCollects(rest: Pat, w: string, i: nat, starts: seq<nat>, k: nat, e: nat)
    requires i <= |w| && Within(starts, i, |w|) && k in starts && k <= |w| && e in Ends(rest, w, k)
    ensures e in EndsFrom(rest, w, i, starts)
  {
    if starts[0] != k {
      EndsFromCollects(rest, w, i, starts[1..], k, e);
    }
  }

  /** For a rigid pattern a full match decides membership in the language, exactly. */
  lemma RigidMatchIsExact(c: Cards, w: string, s: nat, pat: string, p: nat, pend: nat)
    requires s <= |w| && p <= pend <= |pat| && c.Distinct()
    requires Rigid(Parse(c, pat, p, pend))
    ensures var r := Match(c, w, s, pat, p, pend, false, false);
            r.Returned? && (r.value.res <==> In(Parse(c, pat, p, pend), w, s, |w|))
  {
    MatchFollowsEnds(c, w, s, pat, p, pend, false);
    MatchIsSound(c, w, s, pat, p, pend, false);
    if In(Parse(c, pat, p, pend), w, s, |w|) {
      RigidSearchIsComplete(Parse(c, pat, p, pend), w, s, |w|);
    }
  }

  // ----- A partial match takes the shortest prefix

  /** Every alternative of the pattern has branches of one common width. */
  predicate Uniform(pt: Pat)
    decreases pt
  {
    match pt
    case Empty => true
    case One(_, rest) => Uniform(rest)
    case Star(rest) => Uniform(rest)
    case Alt(branches, rest) => BranchesWidth(branches).Some? && Uniform(rest)
  }

  lemma {:induction false} UniformIsRigid(pt: Pat)
    requires Uniform(pt)
    ensures Rigid(pt)
    decreases pt
  {
    match pt
    case Empty =>
    case One(_, rest) => UniformIsRigid(rest);
    case Star(rest) => UniformIsRigid(rest);
    case Alt(branches, rest) =>
      BranchesWidthIsAllWidths(branches);
      UniformIsRigid(rest);
  }

  /** The exchange argument: a word that starts later can be traded for one that starts earlier, at
      any start from which there is a word at all, and ends no later. */
  lemma {:induction false} EarlierStartEndsNoLater(pt: Pat, w: string, i: nat, e: nat, i': nat, e': nat)
    returns (f: nat)
    requires i <= i' <= e' <= |w| && i <= e <= |w| && Uniform(pt)
    requires In(pt, w, i, e) && In(pt, w, i', e')
    ensures i <= f <= e' && In(pt, w, i, f)
    decreases pt
  {
    match pt
    case Empty => f := i;
    case One(_, rest) => f := EarlierStartEndsNoLater(rest, w, i + 1, e, i' + 1, e');
    case Star(rest) =>
      var k' :| i' <= k' <= e' && In(rest, w, k', e');
      f := e';
    case Alt(branches, rest) =>
      var k :| i <= k <= e && InBranches(branches, w, i, k) && In(rest, w, k, e);
      var k' :| i' <= k' <= e' && InBranches(branches, w, i', k') && In(rest, w, k', e');
      BranchesWidthFixesEnd(branches, w, i, k);
      BranchesWidthFixesEnd(branches, w, i', k');
      f := EarlierStartEndsNoLater(rest, w, k, e, k', e');
  }

  lemma {:induction false} FirstStopIsShortest(pt: Pat, w: string, i: nat, j: nat)
    requires i <= j <= |w| && Uniform(pt) && In(pt, w, i, j)
    ensures Ends(pt, w, i) != [] && Ends(pt, w, i)[0] <= j
    decreases |w| - i, pt, 1
  {
    match pt
    case Empty =>
    case One(cls, rest) => FirstStopIsShortest(rest, w, i + 1, j);
    case Star(rest) =>
      var k :| i <= k <= j && In(rest, w, k, j);
      if k == i {
        FirstStopIsShortest(rest, w, i, j);
      } else {
        StarStopIsShortest(rest, w, i, k, j);
      }
    case Alt(branches, rest) =>
      var k :| i <= k <= j && InBranches(branches, w, i, k) && In(rest, w, k, j);
      BranchesStopAtWidth(branches, w, i, k);
      FirstStopIsShortest(rest, w, k, j);
  }

  lemma {:induction false} StarStopIsShortest(rest: Pat, w: string, i: nat, k: nat, j: nat)
    requires i < k <= j <= |w| && Uniform(rest) && In(rest, w, k, j)
    ensures Ends(Star(rest), w, i) != [] && Ends(Star(rest), w, i)[0] <= j
    decreases |w| - i, Star(rest), 0
  {
    var here, later := Ends(rest, w, i), Ends(Star(rest), w, i + 1);
    assert Ends(Star(rest), w, i) == here + later;
    if here == [] {
      assert In(Star(rest), w, i + 1, j);
      FirstStopIsShortest(Star(rest), w, i + 1, j);
    } else {
      EndsAreInLanguage(rest, w, i, here[0]);
      var f := EarlierStartEndsNoLater(rest, w, i, here[0], k, j);
      FirstStopIsShortest(rest, w, i, f);
    }
  }

  lemma BranchesStopAtWidth(bs: Branches, w: string, i: nat, k: nat)
    requires i <= k <= |w| && BranchesWidth(bs).Some? && InBranches(bs, w, i, k)
    ensures FirstEnds(bs, w, i) != [] && FirstEnds(bs, w, i)[0] == k
  {
    BranchesWidthIsAllWidths(bs);
    RigidBranchesComplete(bs, w, i, k);
    FirstEndsAreInLanguage(bs, w, i, FirstEnds(bs, w, i)[0]);
    BranchesWidthFixesEnd(bs, w, i, FirstEnds(bs, w, i)[0]);
    BranchesWidthFixesEnd(bs, w, i, k);
  }

  /** A partial match of a uniform pattern, in particular of one without alternatives, consumes the
      shortest prefix in the language and fails only if no prefix is in it. */
  lemma PartialMatchIsShortest(c: Cards, w: string, s: nat, pat: string, p: nat, pend: nat)
    requires s <= |w| && p <= pend <= |pat| && c.Distinct()
    requires Uniform(Parse(c, pat, p, pend))
    ensures var r := Match(c, w, s, pat, p, pend, true, false);
            var pt := Parse(c, pat, p, pend);
            && r.Returned?
            && (r.value.res ==> s <= r.value.s <= |w| && In(pt, w, s, r.value.s))
            && (forall e :: s <= e <= |w| && In(pt, w, s, e) ==> r.value.res && r.value.s <= e)
  {
    MatchFollowsEnds(c, w, s, pat, p, pend, true);
    MatchIsSound(c, w, s, pat, p, pend, true);
    var pt := Parse(c, pat, p, pend);
    var r := Match(c, w, s, pat, p, pend, true, false);
    forall e | s <= e <= |w| && In(pt, w, s, e)
      ensures r.value.res && r.value.s <= e
    {
      FirstStopIsShortest(pt, w, s, e);
    }
  }
}
