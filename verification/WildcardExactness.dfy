/** Where the matcher is complete and where it is not: alternatives commit to the first stop of a
    branch, so a star inside a branch loses words. */
module WildcardExactness {
  import opened Wrappers
  import opened WildcardCards
  import opened WildcardPattern
  import opened WildcardMatcher
  import opened WildcardSearch
  import opened WildcardTheorems

  // ----- Pattern texts without alternatives

  /** A text in which no alternative can open has no alternatives, so both RigidMatchIsExact and
      PartialMatchIsShortest apply to it. */
  lemma {:induction false} NoOpeningCardIsUniform(c: Cards, pat: string, p: nat, pend: nat)
    requires p <= pend <= |pat|
    requires !c.altEnabled || c.altOpen !in pat[p..pend]
    ensures Uniform(Parse(c, pat, p, pend)) && Rigid(Parse(c, pat, p, pend))
    decreases pend - p
  {
    if p < pend {
      assert pat[p] in pat[p..pend];
      match ElementAt(c, pat, p, pend) {
        case AStar(next) => NoOpeningCardBelow(c, pat, p, next, pend);
        case AChar(_, next) => NoOpeningCardBelow(c, pat, p, next, pend);
        case StrayEscape =>
        case BranchEnd => NoOpeningCardBelow(c, pat, p, p + 1, pend);
      }
    }
  }

  lemma {:induction false} NoOpeningCardBelow(c: Cards, pat: string, p: nat, next: nat, pend: nat)
    requires p < next <= pend <= |pat|
    requires !c.altEnabled || c.altOpen !in pat[p..pend]
    ensures Uniform(Parse(c, pat, next, pend)) && Rigid(Parse(c, pat, next, pend))
    decreases pend - p, 0
  {
    assert pat[next..pend] == pat[p..pend][next - p..];
    NoOpeningCardIsUniform(c, pat, next, pend);
  }

  /** Without alternatives, list_dir keeps a name exactly when the name is in the pattern's language. */
  lemma AlternativeFreeMatchIsExact(c: Cards, w: string, pat: string)
    requires c.Distinct() && (!c.altEnabled || c.altOpen !in pat)
    ensures var r := WholeMatch(c, w, pat);
            r.Returned? && (r.value.res <==> In(Parse(c, pat, 0, |pat|), w, 0, |w|))
  {
    assert pat[0..|pat|] == pat;
    NoOpeningCardIsUniform(c, pat, 0, |pat|);
    RigidMatchIsExact(c, w, 0, pat, 0, |pat|);
  }

  // ----- Exactly when alternatives lose no word

  /** The language depends on the slice alone, not on what stands around it. */
  lemma LanguageIsOfSlices(pt: Pat, w: string, i: nat, j: nat, w': string, i': nat, j': nat)
    requires i <= j <= |w| && i' <= j' <= |w'| && w[i..j] == w'[i'..j'] && In(pt, w, i, j)
    ensures In(pt, w', i', j')
  {
    assert |w[i..j]| == |w'[i'..j']|;
    forall x | i <= x < j
      ensures w[x] == w'[x + (i' - i)]
    {
      assert w[x] == w[i..j][x - i] && w'[x + (i' - i)] == w'[i'..j'][x - i];
    }
    WordsMove(pt, w, i, j, w', i' - i);
  }

  ghost predicate SameChars(w: string, i: nat, j: nat, w': string, d: int)
    requires i <= j <= |w| && 0 <= i + d && j + d <= |w'|
  {
    forall x :: i <= x < j ==> w[x] == w'[x + d]
  }

  lemma {:induction false} WordsMove(pt: Pat, w: string, i: nat, j: nat, w': string, d: int)
    requires i <= j <= |w| && 0 <= i + d && j + d <= |w'| && SameChars(w, i, j, w', d) && In(pt, w, i, j)
    ensures In(pt, w', i + d, j + d)
    decreases pt
  {
    match pt
    case Empty =>
    case One(cls, rest) => WordsMove(rest, w, i + 1, j, w', d);
    case Star(rest) =>
      var k :| i <= k <= j && In(rest, w, k, j);
      WordsMove(rest, w, k, j, w', d);
    case Alt(branches, rest) =>
      var k :| i <= k <= j && InBranches(branches, w, i, k) && In(rest, w, k, j);
      BranchWordsMove(branches, w, i, k, w', d);
      WordsMove(rest, w, k, j, w', d);
  }

  lemma {:induction false} BranchWordsMove(bs: Branches, w: string, i: nat, j: nat, w': string, d: int)
    requires i <= j <= |w| && 0 <= i + d && j + d <= |w'| && SameChars(w, i, j, w', d) && InBranches(bs, w, i, j)
    ensures InBranches(bs, w', i + d, j + d)
    decreases bs
  {
    var b := if bs.Last? then bs.only else bs.first;
    if In(b, w, i, j) {
      WordsMove(b, w, i, j, w', d);
    } else {
      BranchWordsMove(bs.others, w, i, j, w', d);
    }
  }

  /** A uniform pattern with a star has with every word a longer one that continues it. */
  lemma {:induction false} StarExtendsWords(pt: Pat, w: string, i: nat) returns (t: string)
    requires i <= |w| && Uniform(pt) && Width(pt).None? && In(pt, w, i, |w|)
    ensures t != [] && In(pt, w + t, i, |w + t|)
    decreases pt
  {
    match pt
    case One(cls, rest) => t := StarExtendsWords(rest, w, i + 1);
    case Star(rest) =>
      var k :| i <= k <= |w| && In(rest, w, k, |w|);
      t := if k == |w| then "a" else w[k..];
      var k' := |w + t| - (|w| - k);
      assert (w + t)[k'..] == w[k..];
      LanguageIsOfSlices(rest, w, k, |w|, w + t, k', |w + t|);
    case Alt(branches, rest) =>
      var k :| i <= k <= |w| && InBranches(branches, w, i, k) && In(rest, w, k, |w|);
      t := StarExtendsWords(rest, w, k);
      BranchWordsMove(branches, w, i, k, w + t, 0);
  }

  /** Sequences that are words of the pattern from i on, each continued by the next. */
  ghost predicate Chain(pt: Pat, ws: seq<string>, i: nat) {
    && (forall m :: 0 <= m < |ws| ==> i <= |ws[m]| && In(pt, ws[m], i, |ws[m]|))
    && (forall m, n :: 0 <= m < n < |ws| ==> ws[m] < ws[n])
  }

  lemma {:induction false} StarHasChains(pt: Pat, w: string, i: nat, n: nat) returns (ws: seq<string>)
    requires i <= |w| && Uniform(pt) && Width(pt).None? && In(pt, w, i, |w|)
    ensures |ws| == n + 1 && Chain(pt, ws, i) && ws[0] == w
    ensures forall m :: 0 <= m < |ws| ==> w <= ws[m]
    decreases n
  {
    if n == 0 {
      ws := [w];
    } else {
      var t := StarExtendsWords(pt, w, i);
      var rest := StarHasChains(pt, w + t, i, n - 1);
      ws := [w] + rest;
    }
  }

  predicate UniformBranches(bs: Branches)
    decreases bs
  {
    match bs
    case Last(b) => Uniform(b)
    case More(b, others) => Uniform(b) && UniformBranches(others)
  }

  predicate IsBranch(b: Pat, bs: Branches)
    decreases bs
  {
    match bs
    case Last(only) => b == only
    case More(first, others) => b == first || IsBranch(b, others)
  }

  lemma {:induction false} BranchIsInBranches(b: Pat, bs: Branches, w: string, i: nat, j: nat)
    requires i <= j <= |w| && IsBranch(b, bs) && In(b, w, i, j)
    ensures InBranches(bs, w, i, j)
    decreases bs
  {
    if bs.More? && b != bs.first {
      BranchIsInBranches(b, bs.others, w, i, j);
    }
  }

  /** A branch that shows no width, when not all do. */
  lemma {:induction false} StarBranch(bs: Branches) returns (b: Pat)
    requires UniformBranches(bs) && !AllWidths(bs)
    ensures IsBranch(b, bs) && Uniform(b) && Width(b).None?
    decreases bs
  {
    match bs
    case Last(only) => b := only;
    case More(first, others) =>
      if Width(first).None? {
        b := first;
      } else {
        b := StarBranch(others);
      }
  }

  /** No star stands outside an alternative. */
  predicate NoOpenStar(pt: Pat)
    decreases pt
  {
    match pt
    case Empty => true
    case One(_, rest) => NoOpenStar(rest)
    case Star(_) => false
    case Alt(_, rest) => NoOpenStar(rest)
  }

  /** In every branch of the pattern's alternatives, the alternatives nested there are uniform. */
  predicate BranchesUniform(pt: Pat)
    decreases pt
  {
    match pt
    case Empty => true
    case One(_, rest) => BranchesUniform(rest)
    case Star(rest) => BranchesUniform(rest)
    case Alt(bs, rest) => UniformBranches(bs) && BranchesUniform(rest)
  }

  ghost predicate HasWord(pt: Pat) {
    exists v: string :: In(pt, v, 0, |v|)
  }

  /** Every class outside the alternatives accepts some character, and every branch some word. */
  ghost predicate Satisfiable(pt: Pat)
    decreases pt
  {
    match pt
    case Empty => true
    case One(cls, rest) => (exists x :: cls.Accepts(x)) && Satisfiable(rest)
    case Star(rest) => Satisfiable(rest)
    case Alt(bs, rest) => (forall b :: IsBranch(b, bs) ==> HasWord(b)) && Satisfiable(rest)
  }

  /** The part of the pattern after the last alternative with a star in a branch. */
  function Tail(pt: Pat): (r: Pat)
    requires NoOpenStar(pt)
    ensures Rigid(r) && NoOpenStar(r)
    decreases pt
  {
    if Rigid(pt) then pt
    else
      match pt
      case One(_, rest) => Tail(rest)
      case Alt(_, rest) => Tail(rest)
  }

  lemma {:induction false} WordsEndInTail(pt: Pat, w: string, i: nat, j: nat) returns (k: nat)
    requires i <= j <= |w| && NoOpenStar(pt) && In(pt, w, i, j)
    ensures i <= k <= j && In(Tail(pt), w, k, j)
    decreases pt
  {
    if Rigid(pt) {
      k := i;
    } else {
      match pt
      case One(_, rest) => k := WordsEndInTail(rest, w, i + 1, j);
      case Alt(bs, rest) =>
        var h :| i <= h <= j && InBranches(bs, w, i, h) && In(rest, w, h, j);
        k := WordsEndInTail(rest, w, h, j);
    }
  }

  /** No word of the pattern is shorter than n. */
  ghost predicate NoShorter(pt: Pat, n: nat) {
    forall w: string, i: nat, j: nat :: i <= j <= |w| && In(pt, w, i, j) ==> n <= j - i
  }

  lemma {:induction false} ShortestWord(pt: Pat, v: string) returns (r: string)
    requires In(pt, v, 0, |v|)
    ensures In(pt, r, 0, |r|) && NoShorter(pt, |r|)
    decreases |v|
  {
    if NoShorter(pt, |v|) {
      r := v;
    } else {
      var w: string, i: nat, j: nat :| i <= j <= |w| && In(pt, w, i, j) && j - i < |v|;
      var u := w[i..j];
      assert u[0..|u|] == u;
      LanguageIsOfSlices(pt, w, i, j, u, 0, |u|);
      r := ShortestWord(pt, u);
    }
  }

  /** The length of the longest branch. */
  function MaxBranch(bs: Branches): nat
    requires AllWidths(bs)
    decreases bs
  {
    match bs
    case Last(b) => Width(b).value
    case More(b, others) =>
      if Width(b).value < MaxBranch(others) then MaxBranch(others) else Width(b).value
  }

  function MaxWidth(pt: Pat): nat
    requires Rigid(pt) && NoOpenStar(pt)
    decreases pt
  {
    match pt
    case Empty => 0
    case One(_, rest) => 1 + MaxWidth(rest)
    case Alt(bs, rest) => MaxBranch(bs) + MaxWidth(rest)
  }

  lemma {:induction false} BranchIsBounded(bs: Branches, w: string, i: nat, j: nat)
    requires i <= j <= |w| && AllWidths(bs) && InBranches(bs, w, i, j)
    ensures j - i <= MaxBranch(bs)
    decreases bs
  {
    var b := if bs.Last? then bs.only else bs.first;
    if In(b, w, i, j) {
      WidthFixesEnd(b, w, i, j);
    } else {
      BranchIsBounded(bs.others, w, i, j);
    }
  }

  lemma {:induction false} WordIsBounded(pt: Pat, w: string, i: nat, j: nat)
    requires i <= j <= |w| && Rigid(pt) && NoOpenStar(pt) && In(pt, w, i, j)
    ensures j - i <= MaxWidth(pt)
    decreases pt
  {
    match pt
    case Empty =>
    case One(_, rest) => WordIsBounded(rest, w, i + 1, j);
    case Alt(bs, rest) =>
      var k :| i <= k <= j && InBranches(bs, w, i, k) && In(rest, w, k, j);
      BranchIsBounded(bs, w, i, k);
      WordIsBounded(rest, w, k, j);
  }

  // ----- A committed search finds only so many of infinitely many words

  /** Words that continue one another up to a common ending r. */
  ghost predicate Grows(vs: seq<string>) {
    forall m, n :: 0 <= m < n < |vs| ==> vs[m] < vs[n]
  }

  lemma {:induction false} GrowsByOne(vs: seq<string>, from: nat, m: nat)
    requires Grows(vs) && from <= m < |vs|
    ensures |vs[from]| + (m - from) <= |vs[m]| && vs[from] <= vs[m]
    decreases m
  {
    if from < m {
      GrowsByOne(vs, from, m - 1);
      assert vs[m - 1] < vs[m];
    }
  }

  /** How many of such words a search can find. */
  function Limit(pt: Pat): nat
    requires NoOpenStar(pt)
    decreases pt
  {
    if Rigid(pt) then MaxWidth(pt) + 1
    else
      match pt
      case One(_, rest) => 1 + Limit(rest)
      case Alt(bs, rest) => Times(bs, Limit(rest))
  }

  function Times(bs: Branches, n: nat): nat
    decreases bs
  {
    match bs
    case Last(_) => n
    case More(_, others) => n + Times(others, n)
  }

  /** The search from i finds the whole word. */
  predicate Found(pt: Pat, w: string, i: nat)
    requires i <= |w|
  {
    |w| in Ends(pt, w, i)
  }

  predicate FoundFrom(bs: Branches, rest: Pat, w: string, i: nat)
    requires i <= |w|
    decreases bs
  {
    match bs
    case Last(b) => FoundByBranch(b, rest, w, i)
    case More(b, others) => FoundByBranch(b, rest, w, i) || FoundFrom(others, rest, w, i)
  }

  /** The search commits to the branch's first stop and goes on from there. */
  predicate FoundByBranch(b: Pat, rest: Pat, w: string, i: nat)
    requires i <= |w|
  {
    Ends(b, w, i) != [] && Found(rest, w, Ends(b, w, i)[0])
  }

  lemma {:induction false} FoundByAlternative(bs: Branches, rest: Pat, w: string, i: nat)
    requires i <= |w|
    ensures |w| in EndsFrom(rest, w, i, FirstEnds(bs, w, i)) <==> FoundFrom(bs, rest, w, i)
    decreases bs
  {
    var b := if bs.Last? then bs.only else bs.first;
    EndsFromFirst(rest, w, i, Ends(b, w, i));
    if bs.More? {
      EndsFromAppend(rest, w, i, Cut(Ends(b, w, i)), FirstEnds(bs.others, w, i));
      FoundByAlternative(bs.others, rest, w, i);
    }
  }

  /** In a longer word a uniform branch stops first where it did in the shorter one. */
  lemma SameFirstStop(b: Pat, v: string, w: string, w': string, i: nat)
    requires Uniform(b) && v <= w && v <= w' && i <= |v|
    requires Ends(b, w, i) != [] && Ends(b, w, i)[0] <= |v|
    ensures Ends(b, w', i) != [] && Ends(b, w', i)[0] == Ends(b, w, i)[0]
  {
    var k := Ends(b, w, i)[0];
    EndsAreInLanguage(b, w, i, k);
    assert w[i..k] == v[i..k] == w'[i..k];
    LanguageIsOfSlices(b, w, i, k, w', i, k);
    FirstStopIsShortest(b, w', i, k);
    var k' := Ends(b, w', i)[0];
    EndsAreInLanguage(b, w', i, k');
    assert w'[i..k'] == v[i..k'] == w[i..k'];
    LanguageIsOfSlices(b, w', i, k', w, i, k');
    FirstStopIsShortest(b, w, i, k');
  }

  /** A stop inside the ending leaves too little for the rest of the pattern. */
  lemma TooLate(rest: Pat, w: string, r: string, k: nat)
    requires NoOpenStar(rest) && NoShorter(Tail(rest), |r|) && |w| - |r| < k <= |w|
    ensures !Found(rest, w, k)
  {
    if Found(rest, w, k) {
      EndsAreInLanguage(rest, w, k, |w|);
      var _ := WordsEndInTail(rest, w, k, |w|);
    }
  }

  lemma Union(s: set<nat>, t: set<nat>)
    ensures |s + t| <= |s| + |t|
  {
    assert |s + t| == |s| + |t| - |s * t|;
  }

  lemma {:induction false} Range(lo: nat, n: nat) returns (s: set<nat>)
    ensures |s| == n && forall m :: m in s <==> lo <= m < lo + n
  {
    if n == 0 {
      s := {};
    } else {
      s := Range(lo, n - 1);
      s := s + {lo + n - 1};
    }
  }

  lemma {:induction false} Pigeonhole(s: set<nat>, n: nat) returns (m: nat)
    requires |s| < n
    ensures m < n && m !in s
    decreases n
  {
    if n - 1 in s {
      m := Pigeonhole(s - {n - 1}, n - 1);
    } else {
      m := n - 1;
    }
  }

  /** Of words that grow, the search from one position finds at most so many. */
  lemma {:induction false} FindsFew(pt: Pat, vs: seq<string>, r: string, i: nat, from: nat) returns (found: set<nat>)
    requires NoOpenStar(pt) && BranchesUniform(pt) && NoShorter(Tail(pt), |r|)
    requires Grows(vs) && from < |vs| && i <= |vs[from]|
    ensures |found| <= Limit(pt)
    ensures forall m :: from <= m < |vs| && i <= |vs[m] + r| && Found(pt, vs[m] + r, i) ==> m in found
    decreases pt, 0
  {
    if Rigid(pt) {
      found := Range(from, MaxWidth(pt) + 1);
      forall m | from <= m < |vs| && i <= |vs[m] + r| && Found(pt, vs[m] + r, i)
        ensures m in found
      {
        GrowsByOne(vs, from, m);
        EndsAreInLanguage(pt, vs[m] + r, i, |vs[m] + r|);
        WordIsBounded(pt, vs[m] + r, i, |vs[m] + r|);
      }
    } else {
      match pt
      case One(_, rest) =>
        if i < |vs[from]| {
          found := FindsFew(rest, vs, r, i + 1, from);
        } else if from + 1 < |vs| {
          assert vs[from] < vs[from + 1];
          var more := FindsFew(rest, vs, r, i + 1, from + 1);
          Union({from}, more);
          found := {from} + more;
        } else {
          found := {from};
        }
      case Alt(bs, rest) =>
        found := BranchesFindFew(bs, rest, vs, r, i, from);
        forall m | from <= m < |vs| && i <= |vs[m] + r| && Found(pt, vs[m] + r, i)
          ensures m in found
        {
          FoundByAlternative(bs, rest, vs[m] + r, i);
        }
    }
  }

  lemma {:induction false} BranchesFindFew(bs: Branches, rest: Pat, vs: seq<string>, r: string, i: nat, from: nat)
    returns (found: set<nat>)
    requires NoOpenStar(rest) && BranchesUniform(rest) && UniformBranches(bs) && NoShorter(Tail(rest), |r|)
    requires Grows(vs) && from < |vs| && i <= |vs[from]|
    ensures |found| <= Times(bs, Limit(rest))
    ensures forall m :: from <= m < |vs| && i <= |vs[m] + r| && FoundFrom(bs, rest, vs[m] + r, i) ==> m in found
    decreases rest, 2, bs
  {
    match bs
    case Last(b) => found := BranchFindsFew(b, rest, vs, r, i, from);
    case More(b, others) =>
      var first := BranchFindsFew(b, rest, vs, r, i, from);
      var more := BranchesFindFew(others, rest, vs, r, i, from);
      Union(first, more);
      found := first + more;
  }

  /** From the first word on in which the branch stops before the ending, it always stops there. */
  lemma {:induction false} BranchFindsFew(b: Pat, rest: Pat, vs: seq<string>, r: string, i: nat, from: nat)
    returns (found: set<nat>)
    requires NoOpenStar(rest) && BranchesUniform(rest) && Uniform(b) && NoShorter(Tail(rest), |r|)
    requires Grows(vs) && from < |vs| && i <= |vs[from]|
    ensures |found| <= Limit(rest)
    ensures forall m :: from <= m < |vs| && i <= |vs[m] + r| && FoundByBranch(b, rest, vs[m] + r, i) ==> m in found
    decreases rest, 1, |vs| - from
  {
    var w := vs[from] + r;
    if Ends(b, w, i) != [] && Ends(b, w, i)[0] <= |vs[from]| {
      var k := Ends(b, w, i)[0];
      found := FindsFew(rest, vs, r, k, from);
      forall m | from <= m < |vs| && i <= |vs[m] + r| && FoundByBranch(b, rest, vs[m] + r, i)
        ensures m in found
      {
        GrowsByOne(vs, from, m);
        SameFirstStop(b, vs[from], w, vs[m] + r, i);
      }
    } else {
      if Ends(b, w, i) != [] {
        TooLate(rest, w, r, Ends(b, w, i)[0]);
      }
      if from + 1 < |vs| {
        assert vs[from] < vs[from + 1];
        found := BranchFindsFew(b, rest, vs, r, i, from + 1);
      } else {
        found := {};
      }
    }
  }

  /** A pattern with a star in a branch has as many words that grow up to a common ending as one likes. */
  lemma {:induction false} GrowingWords(pt: Pat, u: string, n: nat) returns (vs: seq<string>, r: string)
    requires NoOpenStar(pt) && BranchesUniform(pt) && Satisfiable(pt) && !Rigid(pt)
    ensures |vs| == n + 1 && Grows(vs) && NoShorter(Tail(pt), |r|)
    ensures forall m :: 0 <= m < |vs| ==> u <= vs[m] && In(pt, vs[m] + r, |u|, |vs[m] + r|)
    decreases pt
  {
    match pt
    case One(cls, rest) =>
      var x :| cls.Accepts(x);
      vs, r := GrowingWords(rest, u + [x], n);
      forall m | 0 <= m < |vs|
        ensures u <= vs[m] && In(pt, vs[m] + r, |u|, |vs[m] + r|)
      {
        assert (vs[m] + r)[|u|] == (u + [x])[|u|] == x;
      }
    case Alt(bs, rest) =>
      if Rigid(rest) {
        vs, r := GrowingBranch(bs, rest, u, n);
      } else {
        var b := if bs.Last? then bs.only else bs.first;
        assert HasWord(b);
        var v: string :| In(b, v, 0, |v|);
        vs, r := GrowingWords(rest, u + v, n);
        forall m | 0 <= m < |vs|
          ensures u <= vs[m] && In(pt, vs[m] + r, |u|, |vs[m] + r|)
        {
          StartsWithBranch(bs, b, rest, u, v, vs[m] + r);
        }
      }
  }

  lemma StartsWithBranch(bs: Branches, b: Pat, rest: Pat, u: string, v: string, w: string)
    requires IsBranch(b, bs) && In(b, v, 0, |v|) && u + v <= w && In(rest, w, |u + v|, |w|)
    ensures In(Alt(bs, rest), w, |u|, |w|)
  {
    assert v[0..|v|] == w[|u|..|u + v|];
    LanguageIsOfSlices(b, v, 0, |v|, w, |u|, |u + v|);
    BranchIsInBranches(b, bs, w, |u|, |u + v|);
  }

  lemma GrowingBranch(bs: Branches, rest: Pat, u: string, n: nat) returns (vs: seq<string>, r: string)
    requires UniformBranches(bs) && !AllWidths(bs) && Rigid(rest) && NoOpenStar(rest)
    requires Satisfiable(Alt(bs, rest))
    ensures |vs| == n + 1 && Grows(vs) && NoShorter(rest, |r|)
    ensures forall m :: 0 <= m < |vs| ==> u <= vs[m] && In(Alt(bs, rest), vs[m] + r, |u|, |vs[m] + r|)
  {
    var b := StarBranch(bs);
    var v: string :| In(b, v, 0, |v|);
    assert v[0..|v|] == (u + v)[|u|..|u + v|];
    LanguageIsOfSlices(b, v, 0, |v|, u + v, |u|, |u + v|);
    vs := StarHasChains(b, u + v, |u|, n);
    var t := WordOf(rest);
    r := ShortestWord(rest, t);
    forall m | 0 <= m < |vs|
      ensures u <= vs[m] && In(Alt(bs, rest), vs[m] + r, |u|, |vs[m] + r|)
    {
      EndsWithRest(bs, b, rest, vs[m], r, |u|);
    }
  }

  lemma EndsWithRest(bs: Branches, b: Pat, rest: Pat, v: string, r: string, i: nat)
    requires i <= |v| && IsBranch(b, bs) && In(b, v, i, |v|) && In(rest, r, 0, |r|)
    ensures In(Alt(bs, rest), v + r, i, |v + r|)
  {
    var w := v + r;
    assert v[i..|v|] == w[i..|v|];
    LanguageIsOfSlices(b, v, i, |v|, w, i, |v|);
    BranchIsInBranches(b, bs, w, i, |v|);
    assert r[0..|r|] == w[|v|..|w|];
    LanguageIsOfSlices(rest, r, 0, |r|, w, |v|, |w|);
  }

  lemma {:induction false} WordOf(pt: Pat) returns (v: string)
    requires Satisfiable(pt)
    ensures In(pt, v, 0, |v|)
    decreases pt
  {
    match pt
    case Empty => v := "";
    case One(cls, rest) =>
      var x :| cls.Accepts(x);
      var t := WordOf(rest);
      v := [x] + t;
      assert t[0..|t|] == v[1..|v|];
      LanguageIsOfSlices(rest, t, 0, |t|, v, 1, |v|);
    case Star(rest) => v := WordOf(rest);
    case Alt(bs, rest) =>
      var b := if bs.Last? then bs.only else bs.first;
      assert HasWord(b);
      var u: string :| In(b, u, 0, |u|);
      var t := WordOf(rest);
      v := u + t;
      EndsWithRest(bs, b, rest, u, t, 0);
  }

  /** When a branch holds a star, the matcher misses a word. */
  lemma StarInBranchLosesWord(pt: Pat) returns (w: string)
    requires NoOpenStar(pt) && BranchesUniform(pt) && Satisfiable(pt) && !Rigid(pt)
    ensures In(pt, w, 0, |w|) && |w| !in Ends(pt, w, 0)
  {
    var vs, r := GrowingWords(pt, "", Limit(pt));
    var found := FindsFew(pt, vs, r, 0, 0);
    var m := Pigeonhole(found, Limit(pt) + 1);
    w := vs[m] + r;
  }

  /** The matcher decides the pattern's language, on all sequences. */
  ghost predicate Exact(c: Cards, pat: string) {
    forall w: string ::
      var r := WholeMatch(c, w, pat);
      r.Returned? && (r.value.res <==> In(Parse(c, pat, 0, |pat|), w, 0, |w|))
  }

  /** A pattern without a star outside its alternatives is decided exactly, on all sequences, if and
      only if no branch of its alternatives holds a star.  (A branch without a star that is uniform
      shows a width.) */
  lemma ExactIffNoStarInBranch(c: Cards, pat: string)
    requires c.Distinct()
    requires var pt := Parse(c, pat, 0, |pat|); NoOpenStar(pt) && BranchesUniform(pt) && Satisfiable(pt)
    ensures Exact(c, pat) <==> Rigid(Parse(c, pat, 0, |pat|))
  {
    var pt := Parse(c, pat, 0, |pat|);
    if Rigid(pt) {
      forall w: string
        ensures WholeMatch(c, w, pat).Returned?
        ensures WholeMatch(c, w, pat).value.res <==> In(pt, w, 0, |w|)
      {
        RigidMatchIsExact(c, w, 0, pat, 0, |pat|);
      }
    } else {
      var w := StarInBranchLosesWord(pt);
      MatchFollowsEnds(c, w, 0, pat, 0, |pat|, false);
      assert !WholeMatch(c, w, pat).value.res;
    }
  }

  // ----- Which texts are satisfiable

  /** Every class of the pattern accepts some character. */
  ghost predicate Live(pt: Pat)
    decreases pt
  {
    match pt
    case Empty => true
    case One(cls, rest) => (exists x :: cls.Accepts(x)) && Live(rest)
    case Star(rest) => Live(rest)
    case Alt(bs, rest) => LiveBranches(bs) && Live(rest)
  }

  ghost predicate LiveBranches(bs: Branches)
    decreases bs
  {
    match bs
    case Last(b) => Live(b)
    case More(b, others) => Live(b) && LiveBranches(others)
  }

  lemma {:induction false} LiveIsSatisfiable(pt: Pat)
    requires Live(pt)
    ensures Satisfiable(pt)
    decreases pt
  {
    match pt
    case Empty =>
    case One(_, rest) => LiveIsSatisfiable(rest);
    case Star(rest) => LiveIsSatisfiable(rest);
    case Alt(bs, rest) =>
      forall b | IsBranch(b, bs)
        ensures HasWord(b)
      {
        LiveBranchHasWord(bs, b);
      }
      LiveIsSatisfiable(rest);
  }

  lemma {:induction false} LiveBranchHasWord(bs: Branches, b: Pat)
    requires LiveBranches(bs) && IsBranch(b, bs)
    ensures HasWord(b)
    decreases bs
  {
    if bs.More? && b != bs.first {
      LiveBranchHasWord(bs.others, b);
    } else {
      LiveIsSatisfiable(b);
      var v := WordOf(b);
      assert In(b, v, 0, |v|);
    }
  }

  lemma {:induction false} CodesOf(items: string) returns (codes: set<nat>)
    ensures |codes| <= |items| && forall x :: x in items ==> x as nat in codes
  {
    if items == "" {
      codes := {};
    } else {
      var rest := CodesOf(items[1..]);
      Union({items[0] as nat}, rest);
      codes := {items[0] as nat} + rest;
      assert forall x :: x in items ==> x == items[0] || x in items[1..];
    }
  }

  /** A set of fewer than 256 characters leaves out a byte. */
  lemma SomeByteIsMissing(items: string) returns (x: char)
    requires |items| < 256
    ensures x as int < 256 && x !in items
  {
    var codes := CodesOf(items);
    var m := Pigeonhole(codes, 256);
    x := m as char;
  }

  lemma ElementIsLive(c: Cards, pat: string, p: nat, pend: nat)
    requires p < pend <= |pat| < 256 && ElementAt(c, pat, p, pend).AChar?
    ensures exists x :: ElementAt(c, pat, p, pend).cls.Accepts(x)
  {
    match ElementAt(c, pat, p, pend).cls
    case Exactly(ch) => assert Exactly(ch).Accepts(ch);
    case AnyChar => assert AnyChar.Accepts('a');
    case OneOf(negated, items) =>
      var missing := SomeByteIsMissing(items);
      assert OneOf(negated, items).Accepts(if negated then missing else items[0]);
  }

  lemma {:induction false} ParsesLive(c: Cards, pat: string, p: nat, pend: nat)
    requires p <= pend <= |pat| < 256
    ensures Live(Parse(c, pat, p, pend))
    decreases pend - p, 2
  {
    if p < pend {
      assert Exactly(pat[p]).Accepts(pat[p]);
      match ElementAt(c, pat, p, pend) {
        case AStar(next) => ParsesLive(c, pat, next, pend);
        case AChar(_, next) =>
          ElementIsLive(c, pat, p, pend);
          ParsesLive(c, pat, next, pend);
        case StrayEscape =>
        case BranchEnd => ParsesLive(c, pat, p + 1, pend);
        case AltOpening =>
          BranchesParseLive(c, pat, p + 1, pend);
          match ParseBranches(c, pat, p + 1, pend) {
            case Some((_, close)) => ParsesLive(c, pat, close + 1, pend);
            case None => ParsesLive(c, pat, p + 1, pend);
          }
      }
    }
  }

  lemma {:induction false} BranchesParseLive(c: Cards, pat: string, p: nat, pend: nat)
    requires p <= pend <= |pat| < 256
    ensures ParseBranches(c, pat, p, pend).Some? ==> LiveBranches(ParseBranches(c, pat, p, pend).value.0)
    decreases pend - p, 1
  {
    BranchParsesLive(c, pat, p, pend);
    match ParseBranch(c, pat, p, pend)
    case None =>
    case Some((_, q)) =>
      if pat[q] != c.altClose {
        BranchesParseLive(c, pat, q + 1, pend);
      }
  }

  lemma PrependIsLive(element: Pat, tail: Option<(Pat, nat)>)
    requires !element.Empty? && Live(element) && (tail.Some? ==> Live(tail.value.0))
    ensures Prepend(element, tail).Some? ==> Live(Prepend(element, tail).value.0)
  {
  }

  lemma {:induction false} BranchParsesLive(c: Cards, pat: string, p: nat, pend: nat)
    requires p <= pend <= |pat| < 256
    ensures ParseBranch(c, pat, p, pend).Some? ==> Live(ParseBranch(c, pat, p, pend).value.0)
    decreases pend - p, 0
  {
    if p < pend {
      match ElementAt(c, pat, p, pend) {
        case AStar(next) =>
          BranchParsesLive(c, pat, next, pend);
          PrependIsLive(Star(Empty), ParseBranch(c, pat, next, pend));
        case AChar(cls, next) =>
          ElementIsLive(c, pat, p, pend);
          BranchParsesLive(c, pat, next, pend);
          PrependIsLive(One(cls, Empty), ParseBranch(c, pat, next, pend));
        case StrayEscape =>
        case BranchEnd =>
        case AltOpening =>
          BranchesParseLive(c, pat, p + 1, pend);
          match ParseBranches(c, pat, p + 1, pend) {
            case Some((bs, close)) =>
              BranchParsesLive(c, pat, close + 1, pend);
              PrependIsLive(Alt(bs, Empty), ParseBranch(c, pat, close + 1, pend));
            case None =>
          }
      }
    }
  }

  /** A text of fewer than 256 characters is satisfiable; a longer one may have a set that leaves out
      every character. */
  lemma ShortTextIsSatisfiable(c: Cards, pat: string)
    requires |pat| < 256
    ensures Satisfiable(Parse(c, pat, 0, |pat|))
  {
    ParsesLive(c, pat, 0, |pat|);
    LiveIsSatisfiable(Parse(c, pat, 0, |pat|));
  }

  /** The pattern (a*)c. */
  const COMMITTED := Alt(Last(One(Exactly('a'), Star(Empty))), One(Exactly('c'), Empty))

  lemma CommittedParses()
    ensures Parse(EXTENDED_CARDS, "(a*)c", 0, 5) == COMMITTED
  {
    var c, pat := EXTENDED_CARDS, "(a*)c";
    assert ElementAt(c, pat, 0, 5) == AltOpening && ElementAt(c, pat, 3, 5) == BranchEnd;
    assert ParseBranch(c, pat, 3, 5) == Some((Empty, 3));
    assert ParseBranch(c, pat, 2, 5) == Some((Star(Empty), 3));
    assert ParseBranch(c, pat, 1, 5) == Some((COMMITTED.branches.only, 3));
    assert ParseBranches(c, pat, 1, 5) == Some((COMMITTED.branches, 3));
    assert Parse(c, pat, 4, 5) == COMMITTED.rest;
  }

  /** An instance: (a*)c does not match abc, which is in its language. */
  lemma StarInBranchExample()
    ensures In(Parse(EXTENDED_CARDS, "(a*)c", 0, 5), "abc", 0, 3)
    ensures WholeMatch(EXTENDED_CARDS, "abc", "(a*)c").Returned?
    ensures !WholeMatch(EXTENDED_CARDS, "abc", "(a*)c").value.res
  {
    CommittedParses();
    var w, b := "abc", COMMITTED.branches.only;
    assert In(Empty, w, 2, 2) && In(Star(Empty), w, 1, 2) && In(b, w, 0, 2);
    assert In(COMMITTED.rest, w, 2, 3);
    assert Ends(Star(Empty), w, 1)[0] == 1;
    assert FirstEnds(COMMITTED.branches, w, 0) == [1];
    assert Ends(COMMITTED.rest, w, 1) == [];
    MatchFollowsEnds(EXTENDED_CARDS, w, 0, "(a*)c", 0, 5, false);
  }

  /** The theorem holds of (a*)c. */
  lemma CommittedIsNotExact()
    ensures !Exact(EXTENDED_CARDS, "(a*)c")
  {
    CommittedParses();
    ShortTextIsSatisfiable(EXTENDED_CARDS, "(a*)c");
    ExactIffNoStarInBranch(EXTENDED_CARDS, "(a*)c");
  }

  /** The pattern (a*)*. */
  const RECOVERED := Alt(COMMITTED.branches, Star(Empty))

  lemma RecoveredParses()
    ensures Parse(EXTENDED_CARDS, "(a*)*", 0, 5) == RECOVERED
  {
    var c, pat := EXTENDED_CARDS, "(a*)*";
    assert ElementAt(c, pat, 0, 5) == AltOpening && ElementAt(c, pat, 3, 5) == BranchEnd;
    assert ParseBranch(c, pat, 3, 5) == Some((Empty, 3));
    assert ParseBranch(c, pat, 2, 5) == Some((Star(Empty), 3));
    assert ParseBranch(c, pat, 1, 5) == Some((COMMITTED.branches.only, 3));
    assert ParseBranches(c, pat, 1, 5) == Some((COMMITTED.branches, 3));
    assert Parse(c, pat, 4, 5) == Star(Empty);
  }

  /** With a star outside, a star in a branch need not lose a word: (a*)* is decided exactly. */
  lemma RecoveredIsExact()
    ensures Exact(EXTENDED_CARDS, "(a*)*") && !Rigid(Parse(EXTENDED_CARDS, "(a*)*", 0, 5))
  {
    RecoveredParses();
    forall w: string
      ensures WholeMatch(EXTENDED_CARDS, w, "(a*)*").Returned?
      ensures WholeMatch(EXTENDED_CARDS, w, "(a*)*").value.res <==> In(RECOVERED, w, 0, |w|)
    {
      MatchFollowsEnds(EXTENDED_CARDS, w, 0, "(a*)*", 0, 5, false);
      if In(RECOVERED, w, 0, |w|) {
        RecoveredFindsWord(w);
      } else if |w| in Ends(RECOVERED, w, 0) {
        EndsAreInLanguage(RECOVERED, w, 0, |w|);
      }
    }
  }

  lemma RecoveredFindsWord(w: string)
    requires In(RECOVERED, w, 0, |w|)
    ensures |w| in Ends(RECOVERED, w, 0)
  {
    var b := COMMITTED.branches.only;
    var k :| 0 <= k <= |w| && InBranches(COMMITTED.branches, w, 0, k) && In(Star(Empty), w, k, |w|);
    assert w[0] == 'a';
    assert Ends(Empty, w, 1) == [1];
    assert Ends(b, w, 0) == Ends(Star(Empty), w, 1) && Ends(b, w, 0)[0] == 1;
    assert In(Empty, w, |w|, |w|) && In(Star(Empty), w, 1, |w|);
    RigidSearchIsComplete(Star(Empty), w, 1, |w|);
    assert FoundFrom(COMMITTED.branches, Star(Empty), w, 0);
    FoundByAlternative(COMMITTED.branches, Star(Empty), w, 0);
  }
}
