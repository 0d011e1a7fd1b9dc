/** Sorted indexes over worker records, with the semantics of ordered multi-index containers. */
module WorkerIndex {
  /** One worker, idle or busy. */
  datatype Worker = Worker(identity: string, expiry: int, session: string, idle: bool)

  const NO_SESSION := "N/A"

  /** The five keys that workers are ordered by. */
  datatype Key = ById | ByExpiration | ByIdle | ByIdleId | BySession

  /** The order of std::string. */
  predicate TextLess(x: string, y: string) {
    if y == "" then false
    else if x == "" then true
    else if x[0] != y[0] then x[0] < y[0]
    else TextLess(x[1..], y[1..])
  }

  predicate Less(k: Key, x: Worker, y: Worker) {
    match k
    case ById => TextLess(x.identity, y.identity)
    case ByExpiration => x.expiry > y.expiry
    case ByIdle => !x.idle && y.idle
    case ByIdleId => if x.identity != y.identity then TextLess(x.identity, y.identity) else !x.idle && y.idle
    case BySession => TextLess(x.session, y.session)
  }

  lemma {:induction false} TextOrder(x: string, y: string, z: string)
    ensures !TextLess(x, x)
    ensures TextLess(x, y) ==> TextLess(x, z) || TextLess(z, y)
    ensures !TextLess(x, y) && !TextLess(y, x) ==> x == y
    ensures !(TextLess(x, y) && TextLess(y, x))
    decreases |x| + |y| + |z|
  {
    if x != "" {
      TextOrder(x[1..], if y == "" then y else y[1..], if z == "" then z else z[1..]);
      if y != "" && x[0] == y[0] && x[1..] == y[1..] {
        assert x == [x[0]] + x[1..] && y == [y[0]] + y[1..];
      }
    }
  }

  /** Every key orders the workers weakly. */
  lemma WeakOrder(k: Key, x: Worker, y: Worker, z: Worker)
    ensures !Less(k, x, x)
    ensures Less(k, x, y) ==> Less(k, x, z) || Less(k, z, y)
    ensures !(Less(k, x, y) && Less(k, y, x))
  {
    TextOrder(x.identity, y.identity, z.identity);
    TextOrder(x.identity, z.identity, y.identity);
    TextOrder(z.identity, y.identity, x.identity);
    TextOrder(x.session, y.session, z.session);
  }

  ghost predicate Sorted(k: Key, s: seq<Worker>) {
    forall i, j :: 0 <= i < j < |s| ==> !Less(k, s[j], s[i])
  }

  ghost predicate DistinctIds(s: seq<Worker>) {
    forall i, j :: 0 <= i < j < |s| ==> s[i].identity != s[j].identity
  }

  /** The sequence holds exactly the workers of the map, each once. */
  ghost predicate Holds(s: seq<Worker>, m: map<string, Worker>) {
    && DistinctIds(s)
    && (forall i :: 0 <= i < |s| ==> s[i].identity in m && m[s[i].identity] == s[i])
    && (forall id {:trigger Placed(s, m, id)} :: id in m ==> Placed(s, m, id))
  }

  ghost predicate Placed(s: seq<Worker>, m: map<string, Worker>, id: string)
    requires id in m
  {
    m[id].identity == id && m[id] in s
  }

  ghost predicate IsIndex(k: Key, s: seq<Worker>, m: map<string, Worker>) {
    Sorted(k, s) && Holds(s, m)
  }

  /** Where a worker is linked: after all that are not greater. */
  function UpperBound(k: Key, s: seq<Worker>, w: Worker): (i: nat)
    ensures i <= |s|
    ensures forall j :: 0 <= j < i ==> !Less(k, w, s[j])
    ensures i < |s| ==> Less(k, w, s[i])
  {
    if s == [] || Less(k, w, s[0]) then 0 else 1 + UpperBound(k, s[1..], w)
  }

  function Insert(k: Key, s: seq<Worker>, w: Worker): seq<Worker> {
    var i := UpperBound(k, s, w);
    s[..i] + [w] + s[i..]
  }

  function Remove(s: seq<Worker>, i: nat): seq<Worker>
    requires i < |s|
  {
    s[..i] + s[i + 1..]
  }

  /** A changed worker stays where it is when that keeps the order, and is linked anew otherwise. */
  function Modify(k: Key, s: seq<Worker>, i: nat, w: Worker): seq<Worker>
    requires i < |s|
  {
    if (i == 0 || !Less(k, w, s[i - 1])) && (i == |s| - 1 || !Less(k, s[i + 1], w)) then s[i := w]
    else Insert(k, Remove(s, i), w)
  }

  lemma InsertDistinct(k: Key, s: seq<Worker>, w: Worker)
    requires DistinctIds(s) && forall i :: 0 <= i < |s| ==> s[i].identity != w.identity
    ensures DistinctIds(Insert(k, s, w))
  {
    var at, r := UpperBound(k, s, w), Insert(k, s, w);
    forall i, j | 0 <= i < j < |r|
      ensures r[i].identity != r[j].identity
    {
      if i != at && j != at {
        assert r[i] == s[if i < at then i else i - 1] && r[j] == s[if j < at then j else j - 1];
      }
    }
  }

  lemma InsertHolds(k: Key, s: seq<Worker>, w: Worker, m: map<string, Worker>)
    requires Holds(s, m) && w.identity !in m
    ensures Holds(Insert(k, s, w), m[w.identity := w])
  {
    var i, r, m' := UpperBound(k, s, w), Insert(k, s, w), m[w.identity := w];
    InsertDistinct(k, s, w);
    forall j | 0 <= j < |r|
      ensures r[j].identity in m' && m'[r[j].identity] == r[j]
    {
      assert j == i || r[j] == s[if j < i then j else j - 1];
    }
    assert r[i] == w;
    forall id | id in m'
      ensures Placed(r, m', id)
    {
      if id != w.identity {
        assert Placed(s, m, id);
        var j :| 0 <= j < |s| && s[j] == m[id];
        assert r[if j < i then j else j + 1] == s[j];
      }
    }
  }

  lemma InsertIndexes(k: Key, s: seq<Worker>, w: Worker, m: map<string, Worker>)
    requires IsIndex(k, s, m) && w.identity !in m
    ensures IsIndex(k, Insert(k, s, w), m[w.identity := w])
  {
    InsertKeepsSorted(k, s, w);
    InsertHolds(k, s, w, m);
  }

  lemma InsertKeepsSorted(k: Key, s: seq<Worker>, w: Worker)
    requires Sorted(k, s)
    ensures Sorted(k, Insert(k, s, w))
  {
    var i := UpperBound(k, s, w);
    forall j | i <= j < |s|
      ensures !Less(k, s[j], w)
    {
      WeakOrder(k, w, s[i], s[j]);
      WeakOrder(k, w, s[j], s[j]);
    }
  }

  lemma RemoveIndexes(k: Key, s: seq<Worker>, i: nat, m: map<string, Worker>)
    requires IsIndex(k, s, m) && i < |s|
    ensures IsIndex(k, Remove(s, i), m - {s[i].identity})
  {
    var r, m' := Remove(s, i), m - {s[i].identity};
    assert forall j :: 0 <= j < |r| ==> r[j] == s[if j < i then j else j + 1];
    forall id | id in m'
      ensures Placed(r, m', id)
    {
      assert Placed(s, m, id);
      var j :| 0 <= j < |s| && s[j] == m[id];
      assert r[if j < i then j else j - 1] == s[j];
    }
  }

  lemma ReplaceHolds(s: seq<Worker>, i: nat, w: Worker, m: map<string, Worker>)
    requires Holds(s, m) && i < |s| && w.identity == s[i].identity
    ensures Holds(s[i := w], m[w.identity := w])
  {
    var r, m' := s[i := w], m[w.identity := w];
    assert r[i] == w;
    forall id | id in m'
      ensures Placed(r, m', id)
    {
      if id != w.identity {
        assert Placed(s, m, id);
        var j :| 0 <= j < |s| && s[j] == m[id];
        assert r[j] == s[j];
      }
    }
  }

  lemma ModifyIndexes(k: Key, s: seq<Worker>, i: nat, w: Worker, m: map<string, Worker>)
    requires IsIndex(k, s, m) && i < |s| && w.identity == s[i].identity
    ensures IsIndex(k, Modify(k, s, i, w), m[w.identity := w])
  {
    if (i == 0 || !Less(k, w, s[i - 1])) && (i == |s| - 1 || !Less(k, s[i + 1], w)) {
      InPlaceKeepsSorted(k, s, i, w);
      ReplaceHolds(s, i, w, m);
    } else {
      RemoveIndexes(k, s, i, m);
      InsertIndexes(k, Remove(s, i), w, m - {w.identity});
      assert (m - {w.identity})[w.identity := w] == m[w.identity := w];
    }
  }

  lemma InPlaceKeepsSorted(k: Key, s: seq<Worker>, i: nat, w: Worker)
    requires Sorted(k, s) && i < |s|
    requires i == 0 || !Less(k, w, s[i - 1])
    requires i == |s| - 1 || !Less(k, s[i + 1], w)
    ensures Sorted(k, s[i := w])
  {
    forall j | 0 <= j < i
      ensures !Less(k, w, s[j])
    {
      WeakOrder(k, w, s[j], s[i - 1]);
      WeakOrder(k, s[i - 1], s[i - 1], s[j]);
    }
    forall j | i < j < |s|
      ensures !Less(k, s[j], w)
    {
      WeakOrder(k, s[j], w, s[i + 1]);
      WeakOrder(k, s[j], s[j], s[j]);
    }
  }

  /** Two workers that a unique key does not order are one and the same place in the container. */
  lemma UniqueKey(x: Worker, y: Worker)
    ensures !Less(ById, x, y) && !Less(ById, y, x) ==> x.identity == y.identity
    ensures !Less(ByIdleId, x, y) && !Less(ByIdleId, y, x) ==> x.identity == y.identity && x.idle == y.idle
    ensures !Less(BySession, x, y) && !Less(BySession, y, x) ==> x.session == y.session
  {
    TextOrder(x.identity, y.identity, x.identity);
    TextOrder(x.session, y.session, x.session);
  }

  /** The first position that is not before the probe. */
  method LowerBound(k: Key, s: seq<Worker>, probe: Worker) returns (i: nat)
    requires Sorted(k, s)
    ensures i <= |s|
    ensures forall j :: 0 <= j < i ==> Less(k, s[j], probe)
    ensures forall j :: i <= j < |s| ==> !Less(k, s[j], probe)
  {
    var lo, hi := 0, |s|;
    while lo < hi
      invariant 0 <= lo <= hi <= |s|
      invariant forall j :: 0 <= j < lo ==> Less(k, s[j], probe)
      invariant forall j :: hi <= j < |s| ==> !Less(k, s[j], probe)
    {
      var mid := (lo + hi) / 2;
      if Less(k, s[mid], probe) {
        forall j | 0 <= j <= mid
          ensures Less(k, s[j], probe)
        {
          WeakOrder(k, s[mid], probe, s[j]);
        }
        lo := mid + 1;
      } else {
        forall j | mid <= j < |s|
          ensures !Less(k, s[j], probe)
        {
          WeakOrder(k, s[j], probe, s[mid]);
        }
        hi := mid;
      }
    }
    i := lo;
  }
}

/** The broker's set of workers: five indexes over the same records. */
module WorkerContainer {
  import opened Wrappers
  import opened WorkerIndex

  class WorkerContainer {
    var byId: seq<Worker>
    var byExpiration: seq<Worker>
    var byIdle: seq<Worker>
    var byIdleId: seq<Worker>
    var bySession: seq<Worker>
    const heartbeatExpiry: int
    ghost var workers: map<string, Worker>

    /** Each index is in its own order, and all hold the same workers. */
    ghost predicate Valid()
      reads this
    {
      && IsIndex(ById, byId, workers)
      && IsIndex(ByExpiration, byExpiration, workers)
      && IsIndex(ByIdle, byIdle, workers)
      && IsIndex(ByIdleId, byIdleId, workers)
      && IsIndex(BySession, bySession, workers)
    }

    constructor (heartbeatExpiry: int)
      ensures Valid() && workers == map[] && this.heartbeatExpiry == heartbeatExpiry
    {
      this.heartbeatExpiry := heartbeatExpiry;
      byId, byExpiration, byIdle, byIdleId, bySession, workers := [], [], [], [], [], map[];
    }

    method Get(identity: string) returns (r: Option<Worker>)
      requires Valid()
      ensures r == if identity in workers then Some(workers[identity]) else None
      ensures r.Some? ==> r.value.identity == identity
    {
      var probe := Worker(identity, 0, "", false);
      var i := LowerBound(ById, byId, probe);
      if i < |byId| && !Less(ById, probe, byId[i]) {
        UniqueKey(probe, byId[i]);
        return Some(byId[i]);
      }
      if identity in workers {
        assert Placed(byId, workers, identity);
        var j :| 0 <= j < |byId| && byId[j] == workers[identity];
        WeakOrder(ById, probe, probe, probe);
        assert j >= i;
        WeakOrder(ById, probe, byId[i], byId[j]);
      }
      return None;
    }

    method Exists(identity: string) returns (r: bool)
      requires Valid()
      ensures r == (identity in workers)
    {
      var w := Get(identity);
      r := w.Some?;
    }

    /** The worker that expires last; idle or not. */
    method GetNextWorker() returns (r: Option<Worker>)
      requires Valid()
      ensures r.None? <==> workers == map[]
      ensures r.Some? ==> r.value.identity in workers && workers[r.value.identity] == r.value
      ensures r.Some? ==> forall id :: id in workers ==> workers[id].expiry <= r.value.expiry
    {
      if byExpiration == [] {
        assert forall id :: id in workers ==> Placed(byExpiration, workers, id);
        return None;
      }
      assert byExpiration[0].identity in workers;
      forall id | id in workers
        ensures workers[id].expiry <= byExpiration[0].expiry
      {
        assert Placed(byExpiration, workers, id);
      }
      return Some(byExpiration[0]);
    }

    method GetByLastWorkedSession(session: string) returns (r: Option<Worker>)
      requires Valid()
      ensures r.None? ==> forall id :: id in workers ==> workers[id].session != session
      ensures r.Some? ==> r.value.identity in workers && workers[r.value.identity] == r.value
      ensures r.Some? ==> r.value.session == session
    {
      var probe := Worker("", 0, session, false);
      var i := LowerBound(BySession, bySession, probe);
      if i < |bySession| && !Less(BySession, probe, bySession[i]) {
        UniqueKey(probe, bySession[i]);
        return Some(bySession[i]);
      }
      forall id | id in workers
        ensures workers[id].session != session
      {
        if workers[id].session == session {
          assert Placed(bySession, workers, id);
          var j :| 0 <= j < |bySession| && bySession[j] == workers[id];
          WeakOrder(BySession, bySession[j], bySession[j], bySession[j]);
          assert !Less(BySession, bySession[j], probe) && i <= j;
          WeakOrder(BySession, probe, bySession[i], bySession[j]);
        }
      }
      return None;
    }

    /** The range of idle workers. */
    method IdleWorkers() returns (r: seq<Worker>)
      requires Valid()
      ensures DistinctIds(r)
      ensures forall w: Worker :: w in r <==> w.identity in workers && workers[w.identity] == w && w.idle
      ensures forall id :: id in workers ==> workers[id].identity == id && (workers[id].idle <==> workers[id] in r)
    {
      var i := LowerBound(ByIdle, byIdle, Worker("", 0, "", true));
      r := byIdle[i..];
      forall w: Worker | w.identity in workers && workers[w.identity] == w && w.idle
        ensures w in r
      {
        assert Placed(byIdle, workers, w.identity);
        var j :| 0 <= j < |byIdle| && byIdle[j] == w;
        assert r[j - i] == w;
      }
      assert forall id :: id in workers ==> Placed(byIdle, workers, id);
    }

    method IsIdle(identity: string) returns (r: bool)
      requires Valid()
      ensures r == (identity in workers && workers[identity].idle)
    {
      var i := FindIdle(identity, true);
      r := i.Some?;
    }

    /** The place of the worker in the index by identity and idleness, when it is in that state. */
    method FindIdle(identity: string, idle: bool) returns (r: Option<nat>)
      requires Valid()
      ensures r.Some? <==> identity in workers && workers[identity].idle == idle
      ensures r.Some? ==> r.value < |byIdleId| && byIdleId[r.value] == workers[identity]
      ensures r.Some? ==> byIdleId[r.value].identity == identity
    {
      var probe := Worker(identity, 0, "", idle);
      var i := LowerBound(ByIdleId, byIdleId, probe);
      if i < |byIdleId| && !Less(ByIdleId, probe, byIdleId[i]) {
        UniqueKey(probe, byIdleId[i]);
        return Some(i);
      }
      if identity in workers && workers[identity].idle == idle {
        assert Placed(byIdleId, workers, identity);
        var j :| 0 <= j < |byIdleId| && byIdleId[j] == workers[identity];
        WeakOrder(ById, probe, probe, probe);
        WeakOrder(ByIdleId, probe, byIdleId[i], byIdleId[j]);
        TextOrder(identity, identity, identity);
      }
      return None;
    }

    /** A new worker; one whose identity is taken is not inserted. */
    method Insert(w: Worker, now: int)
      requires Valid()
      modifies this
      ensures Valid()
      ensures workers == if w.identity in old(workers) then old(workers)
                         else old(workers)[w.identity := w.(expiry := now + heartbeatExpiry)]
    {
      var w' := w.(expiry := now + heartbeatExpiry);
      var taken := Exists(w.identity);
      if !taken {
        InsertIndexes(ById, byId, w', workers);
        InsertIndexes(ByExpiration, byExpiration, w', workers);
        InsertIndexes(ByIdle, byIdle, w', workers);
        InsertIndexes(ByIdleId, byIdleId, w', workers);
        InsertIndexes(BySession, bySession, w', workers);
        byId := WorkerIndex.Insert(ById, byId, w');
        byExpiration := WorkerIndex.Insert(ByExpiration, byExpiration, w');
        byIdle := WorkerIndex.Insert(ByIdle, byIdle, w');
        byIdleId := WorkerIndex.Insert(ByIdleId, byIdleId, w');
        bySession := WorkerIndex.Insert(BySession, bySession, w');
        workers := workers[w.identity := w'];
      }
    }

    method Erase(identity: string) returns (r: bool)
      requires Valid()
      modifies this
      ensures Valid()
      ensures r == (identity in old(workers)) && workers == old(workers) - {identity}
    {
      var w := Get(identity);
      if w.None? {
        assert workers - {identity} == workers;
        return false;
      }
      byId := RemoveFrom(ById, byId, w.value, workers);
      byExpiration := RemoveFrom(ByExpiration, byExpiration, w.value, workers);
      byIdle := RemoveFrom(ByIdle, byIdle, w.value, workers);
      byIdleId := RemoveFrom(ByIdleId, byIdleId, w.value, workers);
      bySession := RemoveFrom(BySession, bySession, w.value, workers);
      workers := workers - {identity};
      return true;
    }

    /** modify on any of the indexes: the record changes and every index is put back in order. */
    method Modify(w: Worker, w': Worker)
      requires Valid() && w.identity in workers && workers[w.identity] == w && w'.identity == w.identity
      modifies this
      ensures Valid() && workers == old(workers)[w.identity := w']
    {
      byId := ModifyIn(ById, byId, w, w', workers);
      byExpiration := ModifyIn(ByExpiration, byExpiration, w, w', workers);
      byIdle := ModifyIn(ByIdle, byIdle, w, w', workers);
      byIdleId := ModifyIn(ByIdleId, byIdleId, w, w', workers);
      bySession := ModifyIn(BySession, bySession, w, w', workers);
      workers := workers[w.identity := w'];
    }

    method ModifyIdle(identity: string, idle: bool) returns (r: bool)
      requires Valid()
      modifies this
      ensures Valid()
      ensures r == (identity in old(workers))
      ensures workers == if r then old(workers)[identity := old(workers)[identity].(idle := idle)] else old(workers)
    {
      var i := FindIdle(identity, !idle);
      if i.Some? {
        var w := byIdleId[i.value];
        Modify(w, w.(idle := idle));
        return true;
      }
      r := Exists(identity);
      assert r ==> workers[identity := workers[identity].(idle := idle)] == workers;
    }

    method UpdateLastWorked(identity: string, session: string)
      requires Valid() && identity in workers
      modifies this
      ensures Valid() && workers == old(workers)[identity := old(workers)[identity].(session := session)]
    {
      var w := Get(identity);
      Modify(w.value, w.value.(session := session));
    }

    method UpdateExpiration(identity: string, now: int)
      requires Valid() && identity in workers
      modifies this
      ensures Valid() && workers == old(workers)[identity := old(workers)[identity].(expiry := now + heartbeatExpiry)]
    {
      var w := Get(identity);
      Modify(w.value, w.value.(expiry := now + heartbeatExpiry));
    }
  }

  /** The position of a record in an index. */
  method Locate(s: seq<Worker>, w: Worker) returns (i: nat)
    requires w in s
    ensures i < |s| && s[i] == w
  {
    i := 0;
    while s[i] != w
      invariant i < |s| && w !in s[..i]
      decreases |s| - i
    {
      i := i + 1;
    }
  }

  method RemoveFrom(k: Key, s: seq<Worker>, w: Worker, ghost m: map<string, Worker>) returns (r: seq<Worker>)
    requires IsIndex(k, s, m) && w.identity in m && m[w.identity] == w
    ensures IsIndex(k, r, m - {w.identity})
  {
    assert Placed(s, m, w.identity);
    var i := Locate(s, w);
    RemoveIndexes(k, s, i, m);
    r := Remove(s, i);
  }

  method ModifyIn(k: Key, s: seq<Worker>, w: Worker, w': Worker, ghost m: map<string, Worker>) returns (r: seq<Worker>)
    requires IsIndex(k, s, m) && w.identity in m && m[w.identity] == w && w'.identity == w.identity
    ensures IsIndex(k, r, m[w.identity := w'])
  {
    assert Placed(s, m, w.identity);
    var i := Locate(s, w);
    ModifyIndexes(k, s, i, w', m);
    r := WorkerIndex.Modify(k, s, i, w');
  }
}
