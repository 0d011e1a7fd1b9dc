/** The character scanners of the wildcard matcher (src/common/wildcards.hpp).

    A pair of pattern iterators is a pattern text with two indices p <= pend.  Each scanner comes
    twice: as the recursive function of the constexpr-11 branch, and as the loop of the branch that
    GCC compiles, a method proved equal to the function.  A thrown exception is the outcome Threw. */
module WildcardCards {
  /** The characters with a meaning in a pattern.  Sets and alternatives can be switched off. */
  datatype Cards = Cards(
    anything: char, single: char, escape: char,
    setEnabled: bool, setOpen: char, setClose: char, setNot: char,
    altEnabled: bool, altOpen: char, altClose: char, altOr: char)
  {
    /** No two cards that start or end a pattern element clash.  The cards used only inside a set,
        setClose and setNot, may be any characters. */
    predicate Distinct() {
      && anything != single && anything != escape && single != escape
      && (setEnabled ==> setOpen != anything && setOpen != single && setOpen != escape)
      && (altEnabled ==>
            && altOpen != altClose && altOpen != altOr && altClose != altOr
            && altOpen != anything && altOpen != single && altOpen != escape
            && altClose != anything && altClose != single && altClose != escape
            && altOr != anything && altOr != single && altOr != escape)
      && (setEnabled && altEnabled ==> setOpen != altOpen && setOpen != altClose && setOpen != altOr)
    }
  }

  /** The extended cards that list_dir uses. */
  const EXTENDED_CARDS := Cards('*', '?', '\\', true, '[', ']', '!', true, '(', ')', '|')
}

module WildcardScanners {
  import opened Wrappers
  import opened WildcardCards

  datatype SetState = Open | NotOrFirst | First | Next

  function IsSet(c: Cards, pat: string, p: nat, pend: nat, st: SetState): bool
    requires p <= pend <= |pat|
    decreases pend - p
  {
    && c.setEnabled
    && p != pend
    && match st
       case Open => pat[p] == c.setOpen && IsSet(c, pat, p + 1, pend, NotOrFirst)
       case NotOrFirst => IsSet(c, pat, p + 1, pend, if pat[p] == c.setNot then First else Next)
       case First => IsSet(c, pat, p + 1, pend, Next)
       case Next => pat[p] == c.setClose || IsSet(c, pat, p + 1, pend, Next)
  }

  method IsSetLoop(c: Cards, pat: string, p0: nat, pend: nat, st0: SetState) returns (r: bool)
    requires p0 <= pend <= |pat|
    ensures r == IsSet(c, pat, p0, pend, st0)
  {
    if !c.setEnabled {
      return false;
    }
    var p, st := p0, st0;
    while p != pend
      invariant p0 <= p <= pend
      invariant IsSet(c, pat, p, pend, st) == IsSet(c, pat, p0, pend, st0)
      decreases pend - p
    {
      match st {
        case Open =>
          if pat[p] != c.setOpen {
            return false;
          }
          st := NotOrFirst;
        case NotOrFirst =>
          st := if pat[p] == c.setNot then First else Next;
        case First =>
          st := Next;
        case Next =>
          if pat[p] == c.setClose {
            return true;
          }
      }
      p := p + 1;
    }
    return false;
  }

  function SetEnd(c: Cards, pat: string, p: nat, pend: nat, st: SetState): (r: Outcome<nat>)
    requires p <= pend <= |pat|
    ensures r.Returned? ==> p < r.value <= pend
    decreases pend - p
  {
    if !c.setEnabled || p == pend then Threw
    else
      match st
      case Open => if pat[p] == c.setOpen then SetEnd(c, pat, p + 1, pend, NotOrFirst) else Threw
      case NotOrFirst => SetEnd(c, pat, p + 1, pend, if pat[p] == c.setNot then First else Next)
      case First => SetEnd(c, pat, p + 1, pend, Next)
      case Next => if pat[p] == c.setClose then Returned(p + 1) else SetEnd(c, pat, p + 1, pend, Next)
  }

  method SetEndLoop(c: Cards, pat: string, p0: nat, pend: nat, st0: SetState) returns (r: Outcome<nat>)
    requires p0 <= pend <= |pat|
    ensures r == SetEnd(c, pat, p0, pend, st0)
  {
    if !c.setEnabled {
      return Threw;
    }
    var p, st := p0, st0;
    while p != pend
      invariant p0 <= p <= pend
      invariant SetEnd(c, pat, p, pend, st) == SetEnd(c, pat, p0, pend, st0)
      decreases pend - p
    {
      match st {
        case Open =>
          if pat[p] != c.setOpen {
            return Threw;
          }
          st := NotOrFirst;
        case NotOrFirst =>
          st := if pat[p] == c.setNot then First else Next;
        case First =>
          st := Next;
        case Next =>
          if pat[p] == c.setClose {
            return Returned(p + 1);
          }
      }
      p := p + 1;
    }
    return Threw;
  }

  /** How far a match got: whether it succeeded, and where it stopped in sequence and pattern. */
  datatype MatchResult = MatchResult(res: bool, s: nat, p: nat)

  datatype MatchSetState = SetOpen | NotOrFirstIn | FirstOut | NextIn | NextOut

  function MatchSet(c: Cards, w: string, s: nat, pat: string, p: nat, pend: nat, st: MatchSetState)
    : (r: Outcome<MatchResult>)
    requires s <= |w| && p <= pend <= |pat|
    ensures r.Returned? ==> r.value.s == s && p <= r.value.p <= pend
    decreases pend - p
  {
    if !c.setEnabled || p == pend then Threw
    else
      match st
      case SetOpen =>
        if pat[p] == c.setOpen then MatchSet(c, w, s, pat, p + 1, pend, NotOrFirstIn) else Threw
      case NotOrFirstIn =>
        if pat[p] == c.setNot then MatchSet(c, w, s, pat, p + 1, pend, FirstOut)
        else if s == |w| then Returned(MatchResult(false, s, p))
        else if w[s] == pat[p] then Returned(MatchResult(true, s, p))
        else MatchSet(c, w, s, pat, p + 1, pend, NextIn)
      case FirstOut =>
        if s == |w| || w[s] == pat[p] then Returned(MatchResult(false, s, p))
        else MatchSet(c, w, s, pat, p + 1, pend, NextOut)
      case NextIn =>
        if pat[p] == c.setClose || s == |w| then Returned(MatchResult(false, s, p))
        else if w[s] == pat[p] then Returned(MatchResult(true, s, p))
        else MatchSet(c, w, s, pat, p + 1, pend, NextIn)
      case NextOut =>
        if pat[p] == c.setClose then Returned(MatchResult(true, s, p))
        else if s == |w| || w[s] == pat[p] then Returned(MatchResult(false, s, p))
        else MatchSet(c, w, s, pat, p + 1, pend, NextOut)
  }

  method MatchSetLoop(c: Cards, w: string, s: nat, pat: string, p0: nat, pend: nat, st0: MatchSetState)
    returns (r: Outcome<MatchResult>)
    requires s <= |w| && p0 <= pend <= |pat|
    ensures r == MatchSet(c, w, s, pat, p0, pend, st0)
  {
    if !c.setEnabled {
      return Threw;
    }
    var p, st := p0, st0;
    while p != pend
      invariant p0 <= p <= pend
      invariant MatchSet(c, w, s, pat, p, pend, st) == MatchSet(c, w, s, pat, p0, pend, st0)
      decreases pend - p
    {
      match st {
        case SetOpen =>
          if pat[p] != c.setOpen {
            return Threw;
          }
          st := NotOrFirstIn;
        case NotOrFirstIn =>
          if pat[p] == c.setNot {
            st := FirstOut;
          } else {
            if s == |w| {
              return Returned(MatchResult(false, s, p));
            }
            if w[s] == pat[p] {
              return Returned(MatchResult(true, s, p));
            }
            st := NextIn;
          }
        case FirstOut =>
          if s == |w| || w[s] == pat[p] {
            return Returned(MatchResult(false, s, p));
          }
          st := NextOut;
        case NextIn =>
          if pat[p] == c.setClose || s == |w| {
            return Returned(MatchResult(false, s, p));
          }
          if w[s] == pat[p] {
            return Returned(MatchResult(true, s, p));
          }
        case NextOut =>
          if pat[p] == c.setClose {
            return Returned(MatchResult(true, s, p));
          }
          if s == |w| || w[s] == pat[p] {
            return Returned(MatchResult(false, s, p));
          }
      }
      p := p + 1;
    }
    return Threw;
  }

  /** Where the scanner for alternatives is: before the opening card, between elements, or just
      after an escape card. */
  datatype AltState = AltOpen | AltNext | AltEscape

  /** At p stands a set that closes before pend; the scanners for alternatives step over it. */
  predicate SetHere(c: Cards, pat: string, p: nat, pend: nat)
    requires p < pend <= |pat|
  {
    c.setEnabled && pat[p] == c.setOpen && IsSet(c, pat, p + 1, pend, NotOrFirst)
  }

  function IsAlt(c: Cards, pat: string, p: nat, pend: nat, st: AltState, depth: int): (r: Outcome<bool>)
    requires p <= pend <= |pat|
    decreases pend - p
  {
    if !c.altEnabled || p == pend then Returned(false)
    else
      match st
      case AltOpen =>
        if pat[p] == c.altOpen then IsAlt(c, pat, p + 1, pend, AltNext, depth + 1) else Returned(false)
      case AltNext =>
        if pat[p] == c.escape then IsAlt(c, pat, p + 1, pend, AltEscape, depth)
        else if SetHere(c, pat, p, pend) then
          match SetEnd(c, pat, p + 1, pend, NotOrFirst) {
            case Threw => Threw
            case Returned(q) => IsAlt(c, pat, q, pend, AltNext, depth)
          }
        else if pat[p] == c.altOpen then IsAlt(c, pat, p + 1, pend, AltNext, depth + 1)
        else if pat[p] == c.altClose then
          if depth == 1 then Returned(true) else IsAlt(c, pat, p + 1, pend, AltNext, depth - 1)
        else IsAlt(c, pat, p + 1, pend, AltNext, depth)
      case AltEscape => IsAlt(c, pat, p + 1, pend, AltNext, depth)
  }

  method IsAltLoop(c: Cards, pat: string, p0: nat, pend: nat, st0: AltState, depth0: int)
    returns (r: Outcome<bool>)
    requires p0 <= pend <= |pat|
    ensures r == IsAlt(c, pat, p0, pend, st0, depth0)
  {
    if !c.altEnabled {
      return Returned(false);
    }
    var p, st, depth := p0, st0, depth0;
    while p != pend
      invariant p0 <= p <= pend
      invariant IsAlt(c, pat, p, pend, st, depth) == IsAlt(c, pat, p0, pend, st0, depth0)
      decreases pend - p
    {
      match st {
        case AltOpen =>
          if pat[p] != c.altOpen {
            return Returned(false);
          }
          st, depth := AltNext, depth + 1;
        case AltNext =>
          var isSet := false;
          if pat[p] != c.escape && c.setEnabled && pat[p] == c.setOpen {
            isSet := IsSetLoop(c, pat, p + 1, pend, NotOrFirst);
          }
          if pat[p] == c.escape {
            st := AltEscape;
          } else if isSet {
            var q := SetEndLoop(c, pat, p + 1, pend, NotOrFirst);
            if q.Threw? {
              return Threw;
            }
            p := q.value - 1;
          } else if pat[p] == c.altOpen {
            depth := depth + 1;
          } else if pat[p] == c.altClose {
            depth := depth - 1;
            if depth == 0 {
              return Returned(true);
            }
          }
        case AltEscape =>
          st := AltNext;
      }
      p := p + 1;
    }
    return Returned(false);
  }

  function AltEnd(c: Cards, pat: string, p: nat, pend: nat, st: AltState, depth: int): (r: Outcome<nat>)
    requires p <= pend <= |pat|
    ensures r.Returned? ==> p < r.value <= pend
    decreases pend - p
  {
    if !c.altEnabled || p == pend then Threw
    else
      match st
      case AltOpen =>
        if pat[p] == c.altOpen then AltEnd(c, pat, p + 1, pend, AltNext, depth + 1) else Threw
      case AltNext =>
        if pat[p] == c.escape then AltEnd(c, pat, p + 1, pend, AltEscape, depth)
        else if SetHere(c, pat, p, pend) then
          match SetEnd(c, pat, p + 1, pend, NotOrFirst) {
            case Threw => Threw
            case Returned(q) => AltEnd(c, pat, q, pend, AltNext, depth)
          }
        else if pat[p] == c.altOpen then AltEnd(c, pat, p + 1, pend, AltNext, depth + 1)
        else if pat[p] == c.altClose then
          if depth == 1 then Returned(p + 1) else AltEnd(c, pat, p + 1, pend, AltNext, depth - 1)
        else AltEnd(c, pat, p + 1, pend, AltNext, depth)
      case AltEscape => AltEnd(c, pat, p + 1, pend, AltNext, depth)
  }

  method AltEndLoop(c: Cards, pat: string, p0: nat, pend: nat, st0: AltState, depth0: int)
    returns (r: Outcome<nat>)
    requires p0 <= pend <= |pat|
    ensures r == AltEnd(c, pat, p0, pend, st0, depth0)
  {
    if !c.altEnabled {
      return Threw;
    }
    var p, st, depth := p0, st0, depth0;
    while p != pend
      invariant p0 <= p <= pend
      invariant AltEnd(c, pat, p, pend, st, depth) == AltEnd(c, pat, p0, pend, st0, depth0)
      decreases pend - p
    {
      match st {
        case AltOpen =>
          if pat[p] != c.altOpen {
            return Threw;
          }
          st, depth := AltNext, depth + 1;
        case AltNext =>
          var isSet := false;
          if pat[p] != c.escape && c.setEnabled && pat[p] == c.setOpen {
            isSet := IsSetLoop(c, pat, p + 1, pend, NotOrFirst);
          }
          if pat[p] == c.escape {
            st := AltEscape;
          } else if isSet {
            var q := SetEndLoop(c, pat, p + 1, pend, NotOrFirst);
            if q.Threw? {
              return Threw;
            }
            p := q.value - 1;
          } else if pat[p] == c.altOpen {
            depth := depth + 1;
          } else if pat[p] == c.altClose {
            depth := depth - 1;
            if depth == 0 {
              return Returned(p + 1);
            }
          }
        case AltEscape =>
          st := AltNext;
      }
      p := p + 1;
    }
    return Threw;
  }

  /** The source's scanner has no opening state: it starts inside the alternative. */
  function AltSubEnd(c: Cards, pat: string, p: nat, pend: nat, escaped: bool, depth: int): (r: Outcome<nat>)
    requires p <= pend <= |pat|
    ensures r.Returned? ==> p <= r.value < pend
    decreases pend - p
  {
    if !c.altEnabled || p == pend then Threw
    else if escaped then AltSubEnd(c, pat, p + 1, pend, false, depth)
    else if pat[p] == c.escape then AltSubEnd(c, pat, p + 1, pend, true, depth)
    else if SetHere(c, pat, p, pend) then
      match SetEnd(c, pat, p + 1, pend, NotOrFirst) {
        case Threw => Threw
        case Returned(q) => AltSubEnd(c, pat, q, pend, false, depth)
      }
    else if pat[p] == c.altOpen then AltSubEnd(c, pat, p + 1, pend, false, depth + 1)
    else if pat[p] == c.altClose then
      if depth == 1 then Returned(p) else AltSubEnd(c, pat, p + 1, pend, false, depth - 1)
    else if pat[p] == c.altOr then
      if depth == 1 then Returned(p) else AltSubEnd(c, pat, p + 1, pend, false, depth)
    else AltSubEnd(c, pat, p + 1, pend, false, depth)
  }

  method AltSubEndLoop(c: Cards, pat: string, p0: nat, pend: nat, escaped0: bool, depth0: int)
    returns (r: Outcome<nat>)
    requires p0 <= pend <= |pat|
    ensures r == AltSubEnd(c, pat, p0, pend, escaped0, depth0)
  {
    if !c.altEnabled {
      return Threw;
    }
    var p, escaped, depth := p0, escaped0, depth0;
    while p != pend
      invariant p0 <= p <= pend
      invariant AltSubEnd(c, pat, p, pend, escaped, depth) == AltSubEnd(c, pat, p0, pend, escaped0, depth0)
      decreases pend - p
    {
      if escaped {
        escaped := false;
      } else {
        var isSet := false;
        if pat[p] != c.escape && c.setEnabled && pat[p] == c.setOpen {
          isSet := IsSetLoop(c, pat, p + 1, pend, NotOrFirst);
        }
        if pat[p] == c.escape {
          escaped := true;
        } else if isSet {
          var q := SetEndLoop(c, pat, p + 1, pend, NotOrFirst);
          if q.Threw? {
            return Threw;
          }
          p := q.value - 1;
        } else if pat[p] == c.altOpen {
          depth := depth + 1;
        } else if pat[p] == c.altClose {
          depth := depth - 1;
          if depth == 0 {
            return Returned(p);
          }
        } else if pat[p] == c.altOr {
          if depth == 1 {
            return Returned(p);
          }
        }
      }
      p := p + 1;
    }
    return Threw;
  }

  // ----- Agreement between the scanners

  lemma {:induction false} IsSetIffSetEnd(c: Cards, pat: string, p: nat, pend: nat, st: SetState)
    requires p <= pend <= |pat|
    ensures IsSet(c, pat, p, pend, st) <==> SetEnd(c, pat, p, pend, st).Returned?
    decreases pend - p
  {
    if c.setEnabled && p < pend {
      IsSetIffSetEnd(c, pat, p + 1, pend, NotOrFirst);
      IsSetIffSetEnd(c, pat, p + 1, pend, First);
      IsSetIffSetEnd(c, pat, p + 1, pend, Next);
    }
  }

  /** is_alt never throws, and holds exactly where alt_end returns. */
  lemma {:induction false} IsAltIffAltEnd(c: Cards, pat: string, p: nat, pend: nat, st: AltState, depth: int)
    requires p <= pend <= |pat|
    ensures IsAlt(c, pat, p, pend, st, depth) == Returned(AltEnd(c, pat, p, pend, st, depth).Returned?)
    decreases pend - p
  {
    if c.altEnabled && p < pend {
      if st == AltNext && pat[p] != c.escape && SetHere(c, pat, p, pend) {
        IsSetIffSetEnd(c, pat, p + 1, pend, NotOrFirst);
        IsAltIffAltEnd(c, pat, SetEnd(c, pat, p + 1, pend, NotOrFirst).value, pend, AltNext, depth);
      } else {
        IsAltIffAltEnd(c, pat, p + 1, pend, AltNext, depth);
        IsAltIffAltEnd(c, pat, p + 1, pend, AltEscape, depth);
        IsAltIffAltEnd(c, pat, p + 1, pend, AltNext, depth + 1);
        IsAltIffAltEnd(c, pat, p + 1, pend, AltNext, depth - 1);
      }
    }
  }
}
