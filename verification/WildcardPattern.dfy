/** What a wildcard pattern means, independently of the matcher: the pattern text is parsed by
    recursive descent into a tree, and the tree denotes a set of words. */
module WildcardPattern {
  import opened Wrappers
  import opened WildcardCards

  /** What one character of the sequence is compared with. */
  datatype CharClass =
    | Exactly(ch: char)
    | AnyChar
    | OneOf(negated: bool, items: string)
  {
    predicate Accepts(x: char) {
      match this
      case Exactly(ch) => x == ch
      case AnyChar => true
      case OneOf(negated, items) => (x in items) != negated
    }
  }

  /** A pattern is a list of elements: one character of a class, a star, or an alternative, which
      holds one pattern per branch. */
  datatype Pat =
    | Empty
    | One(cls: CharClass, rest: Pat)
    | Star(rest: Pat)
    | Alt(branches: Branches, rest: Pat)

  datatype Branches = Last(only: Pat) | More(first: Pat, others: Branches)

  // ----- The language of a pattern

  /** The slice w[i..j] is a word of the pattern's language. */
  ghost predicate In(pt: Pat, w: string, i: nat, j: nat)
    requires i <= j <= |w|
    decreases pt
  {
    match pt
    case Empty => i == j
    case One(cls, rest) => i < j && cls.Accepts(w[i]) && In(rest, w, i + 1, j)
    case Star(rest) => exists k :: i <= k <= j && In(rest, w, k, j)
    case Alt(branches, rest) => exists k :: i <= k <= j && InBranches(branches, w, i, k) && In(rest, w, k, j)
  }

  /** The slice w[i..j] is a word of one of the branches. */
  ghost predicate InBranches(bs: Branches, w: string, i: nat, j: nat)
    requires i <= j <= |w|
    decreases bs
  {
    match bs
    case Last(b) => In(b, w, i, j)
    case More(b, others) => In(b, w, i, j) || InBranches(others, w, i, j)
  }

  // ----- Parsing

  /** The first closing card of a set at or after p. */
  function FindSetClose(c: Cards, pat: string, p: nat, pend: nat): (r: Option<nat>)
    requires p <= pend <= |pat|
    ensures match r
            case Some(k) => p <= k < pend && pat[k] == c.setClose && c.setClose !in pat[p..k]
            case None => c.setClose !in pat[p..pend]
    decreases pend - p
  {
    if p == pend then None
    else if pat[p] == c.setClose then Some(p)
    else
      assert forall k :: p < k <= pend ==> pat[p..k] == [pat[p]] + pat[p + 1..k];
      FindSetClose(c, pat, p + 1, pend)
  }

  /** The first item of the set whose opening card is just before p. */
  function SetFirst(c: Cards, pat: string, p: nat, pend: nat): nat
    requires p <= pend <= |pat|
  {
    if p < pend && pat[p] == c.setNot then p + 1 else p
  }

  /** Where the set whose opening card is just before p closes.  A set has at least one item, and the
      first item may be any character, a closing card included. */
  function SetClose(c: Cards, pat: string, p: nat, pend: nat): (r: Option<nat>)
    requires p <= pend <= |pat|
    ensures r.Some? ==> SetFirst(c, pat, p, pend) < r.value < pend
  {
    var first := SetFirst(c, pat, p, pend);
    if first < pend then FindSetClose(c, pat, first + 1, pend) else None
  }

  /** What stands at a position: a star, a character class, an escape card with nothing left to
      escape, a card that may open an alternative, or one that may end a branch. */
  datatype Element = AStar(next: nat) | AChar(cls: CharClass, next: nat) | StrayEscape | AltOpening | BranchEnd

  function ElementAt(c: Cards, pat: string, p: nat, pend: nat): (e: Element)
    requires p < pend <= |pat|
    ensures e.AStar? || e.AChar? ==> p < e.next <= pend
  {
    if pat[p] == c.anything then AStar(p + 1)
    else if pat[p] == c.single then AChar(AnyChar, p + 1)
    else if pat[p] == c.escape then
      if p + 1 == pend then StrayEscape else AChar(Exactly(pat[p + 1]), p + 2)
    else if c.setEnabled && pat[p] == c.setOpen && SetClose(c, pat, p + 1, pend).Some? then
      var first, close := SetFirst(c, pat, p + 1, pend), SetClose(c, pat, p + 1, pend).value;
      AChar(OneOf(first != p + 1, pat[first..close]), close + 1)
    else if c.altEnabled && pat[p] == c.altOpen then AltOpening
    else if c.altEnabled && (pat[p] == c.altClose || pat[p] == c.altOr) then BranchEnd
    else AChar(Exactly(pat[p]), p + 1)
  }

  /** The pattern that the text pat[p..pend] denotes on its own.  Outside any alternative a card
      that ends a branch is ordinary text, and so is an opening card that is never closed; an escape
      card at the very end stands for nothing. */
  function Parse(c: Cards, pat: string, p: nat, pend: nat): Pat
    requires p <= pend <= |pat|
    decreases pend - p, 2
  {
    if p == pend then Empty
    else
      match ElementAt(c, pat, p, pend)
      case AStar(next) => Star(Parse(c, pat, next, pend))
      case AChar(cls, next) => One(cls, Parse(c, pat, next, pend))
      case StrayEscape => Empty
      case BranchEnd => One(Exactly(pat[p]), Parse(c, pat, p + 1, pend))
      case AltOpening =>
        match ParseBranches(c, pat, p + 1, pend)
        case Some((bs, close)) => Alt(bs, Parse(c, pat, close + 1, pend))
        case None => One(Exactly(pat[p]), Parse(c, pat, p + 1, pend))
  }

  /** The branches of the alternative whose opening card is just before p, and the position of its
      closing card; None when it does not close before pend. */
  function ParseBranches(c: Cards, pat: string, p: nat, pend: nat): (r: Option<(Branches, nat)>)
    requires p <= pend <= |pat|
    ensures r.Some? ==> p <= r.value.1 < pend && pat[r.value.1] == c.altClose
    decreases pend - p, 1
  {
    match ParseBranch(c, pat, p, pend)
    case None => None
    case Some((b, q)) =>
      if pat[q] == c.altClose then Some((Last(b), q))
      else
        match ParseBranches(c, pat, q + 1, pend)
        case None => None
        case Some((bs, close)) => Some((More(b, bs), close))
  }

  /** One branch from p on, and the position of the card that ends it: the next bar or closing card
      at the branch's own level. */
  function ParseBranch(c: Cards, pat: string, p: nat, pend: nat): (r: Option<(Pat, nat)>)
    requires p <= pend <= |pat|
    ensures r.Some? ==> p <= r.value.1 < pend && ElementAt(c, pat, r.value.1, pend) == BranchEnd
    decreases pend - p, 0
  {
    if p == pend then None
    else
      match ElementAt(c, pat, p, pend)
      case AStar(next) => Prepend(Star(Empty), ParseBranch(c, pat, next, pend))
      case AChar(cls, next) => Prepend(One(cls, Empty), ParseBranch(c, pat, next, pend))
      case StrayEscape => None
      case BranchEnd => Some((Empty, p))
      case AltOpening =>
        match ParseBranches(c, pat, p + 1, pend)
        case None => None
        case Some((bs, close)) => Prepend(Alt(bs, Empty), ParseBranch(c, pat, close + 1, pend))
  }

  function Prepend(element: Pat, tail: Option<(Pat, nat)>): Option<(Pat, nat)>
    requires !element.Empty?
  {
    match tail
    case None => None
    case Some((b, q)) => Some((element.(rest := b), q))
  }
}
