/** The queue of postponed actions: unique by id, ordered by expiration. */
module PostponedActions {
  import opened Wrappers
  import opened MdpMessage

  type Byte = b: nat | b < 256

  /** An action put off, with where its result goes, its remaining runs, and its time in seconds. */
  datatype Entry = Entry(action: Action, replyTo: string, id: string, remainingRuns: Byte, expiration: int,
                         session: string)

  /** How many entries are due at a time.  Equal expirations keep the order in which they came. */
  function UpperBound(s: seq<Entry>, expiration: int): (i: nat)
    ensures i <= |s|
    ensures forall j :: 0 <= j < i ==> s[j].expiration <= expiration
    ensures i < |s| ==> expiration < s[i].expiration
  {
    if s == [] || expiration < s[0].expiration then 0 else 1 + UpperBound(s[1..], expiration)
  }

  /** The entries that are due at a time. */
  function Due(s: seq<Entry>, now: int): seq<Entry> {
    s[..UpperBound(s, now)]
  }

  function Insert(s: seq<Entry>, e: Entry): seq<Entry> {
    var i := UpperBound(s, e.expiration);
    s[..i] + [e] + s[i..]
  }

  predicate HasId(s: seq<Entry>, id: string) {
    exists i :: 0 <= i < |s| && s[i].id == id
  }

  function IndexOf(s: seq<Entry>, id: string): (i: nat)
    requires HasId(s, id)
    ensures i < |s| && s[i].id == id
  {
    if s[0].id == id then 0
    else
      assert HasId(s[1..], id) by {
        var i :| 0 <= i < |s| && s[i].id == id;
        assert s[1..][i - 1].id == id;
      }
      1 + IndexOf(s[1..], id)
  }

  lemma TopIsFound(s: seq<Entry>)
    requires s != []
    ensures HasId(s, s[0].id) && IndexOf(s, s[0].id) == 0
  {
  }

  function Without(s: seq<Entry>, i: nat): seq<Entry>
    requires i < |s|
  {
    s[..i] + s[i + 1..]
  }

  ghost predicate Sorted(s: seq<Entry>) {
    forall i, j :: 0 <= i < j < |s| ==> s[i].expiration <= s[j].expiration
  }

  ghost predicate UniqueIds(s: seq<Entry>) {
    forall i, j :: 0 <= i < j < |s| ==> s[i].id != s[j].id
  }

  /** A queue: in order, and one entry for an id. */
  ghost predicate IsQueue(s: seq<Entry>) {
    Sorted(s) && UniqueIds(s)
  }

  lemma InsertAt(s: seq<Entry>, e: Entry, i: nat)
    requires i <= |s|
    ensures var r, at := Insert(s, e), UpperBound(s, e.expiration);
            && |r| == |s| + 1 && r[i] == if i < at then s[i] else if i == at then e else s[i - 1]
  {
  }

  lemma InsertSorted(s: seq<Entry>, e: Entry)
    requires Sorted(s)
    ensures Sorted(Insert(s, e))
  {
    forall i, j | 0 <= i < j < |Insert(s, e)|
      ensures Insert(s, e)[i].expiration <= Insert(s, e)[j].expiration
    {
      InsertAt(s, e, i);
      InsertAt(s, e, j);
    }
  }

  lemma InsertUnique(s: seq<Entry>, e: Entry)
    requires UniqueIds(s) && !HasId(s, e.id)
    ensures UniqueIds(Insert(s, e))
  {
    forall i, j | 0 <= i < j < |Insert(s, e)|
      ensures Insert(s, e)[i].id != Insert(s, e)[j].id
    {
      InsertAt(s, e, i);
      InsertAt(s, e, j);
    }
  }

  /** Adding keeps the order, and the ids unique exactly when the id is new. */
  lemma InsertIsQueueIff(s: seq<Entry>, e: Entry)
    requires IsQueue(s)
    ensures IsQueue(Insert(s, e)) <==> !HasId(s, e.id)
  {
    InsertSorted(s, e);
    if HasId(s, e.id) {
      var k, at := IndexOf(s, e.id), UpperBound(s, e.expiration);
      InsertAt(s, e, at);
      InsertAt(s, e, if k < at then k else k + 1);
    } else {
      InsertUnique(s, e);
    }
  }

  lemma WithoutAt(s: seq<Entry>, i: nat, j: nat)
    requires i < |s| && j < |s| - 1
    ensures Without(s, i)[j] == s[if j < i then j else j + 1]
  {
  }

  lemma WithoutIsQueue(s: seq<Entry>, i: nat)
    requires IsQueue(s) && i < |s|
    ensures IsQueue(Without(s, i)) && !HasId(Without(s, i), s[i].id)
  {
    var r := Without(s, i);
    forall j, k | 0 <= j < k < |r|
      ensures r[j].expiration <= r[k].expiration && r[j].id != r[k].id
    {
      WithoutAt(s, i, j);
      WithoutAt(s, i, k);
    }
    forall j | 0 <= j < |r|
      ensures r[j].id != s[i].id
    {
      WithoutAt(s, i, j);
    }
  }

  /** The decrement of a byte wraps around. */
  function Decremented(b: Byte): Byte {
    if b == 0 then 255 else b - 1
  }

  /** One run fewer, and due one second from now. */
  function Later(e: Entry, now: int): (r: Entry)
    ensures r.id == e.id
  {
    e.(expiration := now + 1, remainingRuns := Decremented(e.remainingRuns))
  }

  function PutOff(s: seq<Entry>, i: nat, now: int): seq<Entry>
    requires i < |s|
  {
    Insert(Without(s, i), Later(s[i], now))
  }

  lemma PutOffIsQueue(s: seq<Entry>, i: nat, now: int)
    requires IsQueue(s) && i < |s|
    ensures IsQueue(PutOff(s, i, now))
  {
    WithoutIsQueue(s, i);
    InsertIsQueueIff(Without(s, i), Later(s[i], now));
  }

  /** One entry has one run fewer, in byte arithmetic, and its time one second after now; all else is as it was. */
  ghost predicate OnePutOff(s: seq<Entry>, s': seq<Entry>, i: nat, now: int)
    requires i < |s|
  {
    var runs: Byte := if s[i].remainingRuns == 0 then 255 else s[i].remainingRuns - 1;
    multiset(s') == multiset(s) - multiset{s[i]} + multiset{s[i].(expiration := now + 1, remainingRuns := runs)}
  }

  /** Putting an entry off gives it one run fewer and the time one second later, and keeps everything else
      about it and every other entry. */
  lemma PutOffChangesOne(s: seq<Entry>, i: nat, now: int)
    requires i < |s|
    ensures OnePutOff(s, PutOff(s, i, now), i, now)
  {
    var r, e := Without(s, i), Later(s[i], now);
    var u := UpperBound(r, e.expiration);
    assert s == s[..i] + [s[i]] + s[i + 1..];
    assert multiset(s) == multiset(r) + multiset{s[i]};
    assert r == r[..u] + r[u..];
    assert multiset(Insert(r, e)) == multiset(r) + multiset{e};
  }

  /** Due at a time are the entries whose time has come then, and no others. */
  lemma DueIff(s: seq<Entry>, now: int, e: Entry)
    requires Sorted(s)
    ensures e in Due(s, now) <==> e in s && e.expiration <= now
  {
    var u := UpperBound(s, now);
    if e in s && e.expiration <= now {
      var i :| 0 <= i < |s| && s[i] == e;
      assert i < u;
      assert Due(s, now)[i] == e;
    }
  }

  /** An entry that is inserted is due from its time on, and not before. */
  lemma InsertedIsDue(s: seq<Entry>, e: Entry, now: int)
    requires IsQueue(s) && !HasId(s, e.id)
    ensures HasId(Due(Insert(s, e), now), e.id) <==> e.expiration <= now
  {
    var r, at := Insert(s, e), UpperBound(s, e.expiration);
    InsertIsQueueIff(s, e);
    InsertAt(s, e, at);
    DueIff(r, now, e);
    if HasId(Due(r, now), e.id) {
      var i :| 0 <= i < |Due(r, now)| && Due(r, now)[i].id == e.id;
      assert r[i].id == r[at].id;
    }
    if e in Due(r, now) {
      var i :| 0 <= i < |Due(r, now)| && Due(r, now)[i] == e;
      assert Due(r, now)[i].id == e.id;
    }
  }

  lemma UpperBoundIs(s: seq<Entry>, expiration: int, i: nat)
    requires Sorted(s) && i <= |s| && (i < |s| ==> expiration < s[i].expiration)
    requires forall j :: 0 <= j < i ==> s[j].expiration <= expiration
    ensures UpperBound(s, expiration) == i
  {
  }

  /** An entry that comes later changes nothing about what is due now. */
  lemma InsertLater(s: seq<Entry>, now: int, e: Entry)
    requires Sorted(s) && now < e.expiration
    ensures Due(Insert(s, e), now) == Due(s, now)
  {
    var r, u, at := Insert(s, e), UpperBound(s, now), UpperBound(s, e.expiration);
    assert u <= at;
    forall j | 0 <= j < u
      ensures r[j] == s[j]
    {
      InsertAt(s, e, j);
    }
    InsertAt(s, e, u);
    InsertSorted(s, e);
    UpperBoundIs(r, now, u);
  }

  lemma RestDue(s: seq<Entry>, now: int)
    requires s != [] && s[0].expiration <= now
    ensures |Due(s, now)| > 0 && Due(s[1..], now) == Due(s, now)[1..]
  {
    var u := UpperBound(s[1..], now);
    assert s[1..][..u] == s[1..u + 1];
  }

  /** Taking away the first of the due entries leaves the others due, in order, also when it comes back
      with a later time. */
  lemma OthersStayDue(s: seq<Entry>, now: int, e: Entry)
    requires IsQueue(s) && s != [] && s[0].expiration <= now < e.expiration
    ensures Due(Without(s, 0), now) == Due(s, now)[1..]
    ensures Due(Insert(Without(s, 0), e), now) == Due(s, now)[1..]
  {
    assert Without(s, 0) == s[1..];
    RestDue(s, now);
    WithoutIsQueue(s, 0);
    InsertLater(Without(s, 0), now, e);
  }

  lemma DueAfterRun(s: seq<Entry>, now: int, at: int)
    requires IsQueue(s) && s != [] && s[0].expiration <= now <= at
    ensures Due(Without(s, 0), now) == Due(s, now)[1..]
    ensures Due(PutOff(s, 0, at), now) == Due(s, now)[1..]
  {
    OthersStayDue(s, now, Later(s[0], at));
  }

  lemma NoneDue(s: seq<Entry>, now: int)
    requires IsQueue(s) && (s == [] || now < s[0].expiration)
    ensures UpperBound(s, now) == 0 && forall i :: 0 <= i < |s| ==> now < s[i].expiration
  {
  }

  class PostponedQueue {
    var paq: seq<Entry>

    ghost predicate Valid()
      reads this
    {
      IsQueue(paq)
    }

    constructor ()
      ensures Valid() && paq == []
    {
      paq := [];
    }

    /** The search by id. */
    method Find(id: string) returns (r: Option<nat>)
      requires Valid()
      ensures r == if HasId(paq, id) then Some(IndexOf(paq, id)) else None
    {
      for i := 0 to |paq|
        invariant forall j :: 0 <= j < i ==> paq[j].id != id
      {
        if paq[i].id == id {
          assert IndexOf(paq, id) == i;
          return Some(i);
        }
      }
      return None;
    }

    /** An action whose id is already queued is not added. */
    method Add(e: Entry) returns (ok: bool)
      requires Valid()
      modifies this
      ensures Valid()
      ensures ok == !HasId(old(paq), e.id)
      ensures paq == if ok then Insert(old(paq), e) else old(paq)
    {
      var i := Find(e.id);
      if i.Some? {
        return false;
      }
      InsertIsQueueIff(paq, e);
      paq := Insert(paq, e);
      return true;
    }

    method DecrementRunsAndUpdateExpiration(id: string, now: int) returns (ok: bool)
      requires Valid()
      modifies this
      ensures Valid()
      ensures ok == HasId(old(paq), id)
      ensures paq == if ok then PutOff(old(paq), IndexOf(old(paq), id), now) else old(paq)
      ensures ok ==> OnePutOff(old(paq), paq, IndexOf(old(paq), id), now)
    {
      var i := Find(id);
      if i.None? {
        return false;
      }
      PutOffIsQueue(paq, i.value, now);
      PutOffChangesOne(paq, i.value, now);
      paq := PutOff(paq, i.value, now);
      return true;
    }

    method RemoveById(id: string) returns (ok: bool)
      requires Valid()
      modifies this
      ensures Valid()
      ensures ok == HasId(old(paq), id)
      ensures paq == if ok then Without(old(paq), IndexOf(old(paq), id)) else old(paq)
    {
      var i := Find(id);
      if i.None? {
        return false;
      }
      WithoutIsQueue(paq, i.value);
      paq := Without(paq, i.value);
      return true;
    }
  }
}
