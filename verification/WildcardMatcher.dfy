/** The backtracking matcher of src/common/wildcards.hpp, on indices, as the code has it: there is
    no pattern tree, every call asks the scanners again. */
module WildcardMatcher {
  import opened Wrappers
  import opened WildcardCards
  import opened WildcardScanners

  function Match(c: Cards, w: string, s: nat, pat: string, p: nat, pend: nat, partial: bool, escape: bool)
    : (r: Outcome<MatchResult>)
    requires s <= |w| && p <= pend <= |pat|
    ensures r.Returned? ==> s <= r.value.s <= |w| && p <= r.value.p <= pend
    decreases |w| - s, pend - p, 1
  {
    if p == pend then Returned(MatchResult(partial || s == |w|, s, p))
    else if escape then
      if s == |w| || w[s] != pat[p] then Returned(MatchResult(false, s, p))
      else Match(c, w, s + 1, pat, p + 1, pend, partial, false)
    else if pat[p] == c.anything then
      var result := Match(c, w, s, pat, p + 1, pend, partial, false);
      if result.Threw? || result.value.res then result
      else if s == |w| then Returned(MatchResult(false, s, p))
      else Match(c, w, s + 1, pat, p, pend, partial, false)
    else if pat[p] == c.single then
      if s == |w| then Returned(MatchResult(false, s, p))
      else Match(c, w, s + 1, pat, p + 1, pend, partial, false)
    else if pat[p] == c.escape then Match(c, w, s, pat, p + 1, pend, partial, true)
    else if SetHere(c, pat, p, pend) then
      match MatchSet(c, w, s, pat, p + 1, pend, NotOrFirstIn)
      case Threw => Threw
      case Returned(result) =>
        if !result.res then Returned(result)
        else
          match SetEnd(c, pat, p + 1, pend, NotOrFirst)
          case Threw => Threw
          case Returned(next) =>
            // stepping past the end of the sequence is undefined behaviour; MatchFollowsEnds rules it out
            if s == |w| then Threw else Match(c, w, s + 1, pat, next, pend, partial, false)
    else
      match if c.altEnabled && pat[p] == c.altOpen then IsAlt(c, pat, p + 1, pend, AltNext, 1) else Returned(false)
      case Threw => Threw
      case Returned(true) => (
        match AltEnd(c, pat, p + 1, pend, AltNext, 1)
        case Threw => Threw
        case Returned(altEnd) =>
          match AltSubEnd(c, pat, p + 1, altEnd, false, 1)
          case Threw => Threw
          case Returned(subEnd) => MatchAlt(c, w, s, pat, p + 1, subEnd, altEnd, pend, partial)
      )
      case Returned(false) =>
        if s == |w| || w[s] != pat[p] then Returned(MatchResult(false, s, p))
        else Match(c, w, s + 1, pat, p + 1, pend, partial, false)
  }

  /** The branches from p1 on, the first of them pat[p1..p1end], then the rest of the pattern,
      pat[p2..p2end].  A branch is matched as far as its first success and not tried again. */
  function MatchAlt(c: Cards, w: string, s: nat, pat: string, p1: nat, p1end: nat, p2: nat, p2end: nat, partial: bool)
    : (r: Outcome<MatchResult>)
    requires s <= |w| && p1 <= p1end < p2 <= p2end <= |pat|
    ensures r.Returned? ==> s <= r.value.s <= |w| && p1 <= r.value.p <= p2end
    decreases |w| - s, p2end - p1, 0
  {
    var result1 := Match(c, w, s, pat, p1, p1end, true, false);
    if result1.Threw? then Threw
    else
      var result2 :=
        if result1.value.res then Match(c, w, result1.value.s, pat, p2, p2end, partial, false) else result1;
      if result2.Threw? || result2.value.res then result2
      else if p1end + 1 == p2 then Returned(MatchResult(false, s, p1end))
      else
        match AltSubEnd(c, pat, p1end + 1, p2, false, 1)
        case Threw => Threw
        case Returned(subEnd) => MatchAlt(c, w, s, pat, p1end + 1, subEnd, p2, p2end, partial)
  }

  /** The branch of the code that GCC compiles: the same recursion, over the scanner loops. */
  method RunMatch(c: Cards, w: string, s: nat, pat: string, p: nat, pend: nat, partial: bool, escape: bool)
    returns (r: Outcome<MatchResult>)
    requires s <= |w| && p <= pend <= |pat|
    ensures r == Match(c, w, s, pat, p, pend, partial, escape)
    decreases |w| - s, pend - p, 1
  {
    if p == pend {
      return Returned(MatchResult(partial || s == |w|, s, p));
    }
    if escape {
      if s == |w| || w[s] != pat[p] {
        return Returned(MatchResult(false, s, p));
      }
      r := RunMatch(c, w, s + 1, pat, p + 1, pend, partial, false);
      return;
    }
    if pat[p] == c.anything {
      r := RunMatch(c, w, s, pat, p + 1, pend, partial, false);
      if r.Threw? || r.value.res {
        return;
      }
      if s == |w| {
        return Returned(MatchResult(false, s, p));
      }
      r := RunMatch(c, w, s + 1, pat, p, pend, partial, false);
      return;
    }
    if pat[p] == c.single {
      if s == |w| {
        return Returned(MatchResult(false, s, p));
      }
      r := RunMatch(c, w, s + 1, pat, p + 1, pend, partial, false);
      return;
    }
    if pat[p] == c.escape {
      r := RunMatch(c, w, s, pat, p + 1, pend, partial, true);
      return;
    }
    if c.setEnabled && pat[p] == c.setOpen {
      var isSet := IsSetLoop(c, pat, p + 1, pend, NotOrFirst);
      if isSet {
        r := MatchSetLoop(c, w, s, pat, p + 1, pend, NotOrFirstIn);
        if r.Threw? || !r.value.res {
          return;
        }
        var next := SetEndLoop(c, pat, p + 1, pend, NotOrFirst);
        if next.Threw? || s == |w| {
          return Threw;
        }
        r := RunMatch(c, w, s + 1, pat, next.value, pend, partial, false);
        return;
      }
    }
    if c.altEnabled && pat[p] == c.altOpen {
      var isAlt := IsAltLoop(c, pat, p + 1, pend, AltNext, 1);
      if isAlt.Threw? {
        return Threw;
      }
      if isAlt.value {
        r := RunAlternative(c, w, s, pat, p, pend, partial);
        return;
      }
    }
    if s == |w| || w[s] != pat[p] {
      return Returned(MatchResult(false, s, p));
    }
    r := RunMatch(c, w, s + 1, pat, p + 1, pend, partial, false);
  }

  /** The case of an alternative, whose opening card is at p. */
  method RunAlternative(c: Cards, w: string, s: nat, pat: string, p: nat, pend: nat, partial: bool)
    returns (r: Outcome<MatchResult>)
    requires s <= |w| && p < pend <= |pat|
    ensures r == match AltEnd(c, pat, p + 1, pend, AltNext, 1)
                 case Threw => Threw
                 case Returned(altEnd) =>
                   match AltSubEnd(c, pat, p + 1, altEnd, false, 1)
                   case Threw => Threw
                   case Returned(subEnd) => MatchAlt(c, w, s, pat, p + 1, subEnd, altEnd, pend, partial)
    decreases |w| - s, pend - p, 0
  {
    var altEnd := AltEndLoop(c, pat, p + 1, pend, AltNext, 1);
    if altEnd.Threw? {
      return Threw;
    }
    var subEnd := AltSubEndLoop(c, pat, p + 1, altEnd.value, false, 1);
    if subEnd.Threw? {
      return Threw;
    }
    r := RunMatchAlt(c, w, s, pat, p + 1, subEnd.value, altEnd.value, pend, partial);
  }

  method RunMatchAlt(c: Cards, w: string, s: nat, pat: string, p1: nat, p1end: nat, p2: nat, p2end: nat, partial: bool)
    returns (r: Outcome<MatchResult>)
    requires s <= |w| && p1 <= p1end < p2 <= p2end <= |pat|
    ensures r == MatchAlt(c, w, s, pat, p1, p1end, p2, p2end, partial)
    decreases |w| - s, p2end - p1, 0
  {
    var result1 := RunMatch(c, w, s, pat, p1, p1end, true, false);
    if result1.Threw? {
      return Threw;
    }
    if result1.value.res {
      r := RunMatch(c, w, result1.value.s, pat, p2, p2end, partial, false);
      if r.Threw? || r.value.res {
        return;
      }
    }
    if p1end + 1 == p2 {
      return Returned(MatchResult(false, s, p1end));
    }
    var subEnd := AltSubEndLoop(c, pat, p1end + 1, p2, false, 1);
    if subEnd.Threw? {
      return Threw;
    }
    r := RunMatchAlt(c, w, s, pat, p1end + 1, subEnd.value, p2, p2end, partial);
  }

  /** wildcards::match on a whole sequence and a whole pattern. */
  function WholeMatch(c: Cards, w: string, pat: string): Outcome<MatchResult> {
    Match(c, w, 0, pat, 0, |pat|, false, false)
  }
}
