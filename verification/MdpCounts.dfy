/** What clients asked for, counted place by place in their own messages. */
module MdpCounts {
  import opened MdpMessage
  import opened Tasks
  import opened ZmqMessage
  import opened MdpSystem

  /** The places in a request where a client asks for the task. */
  function AskPlaces(a: Ask, local: set<string>, t: Task): set<nat> {
    set j: nat | j < |RequestOf(a.msg).actions| && AsksFor(a, local, j, t)
  }

  function Pairs(k: nat, js: set<nat>): set<(nat, nat)> {
    set j | j in js :: (k, j)
  }

  /** The places in the requests of all clients: which request, and which of its actions. */
  function AskedPlaces(asked: seq<Ask>, local: set<string>, t: Task): set<(nat, nat)> {
    set k: nat, j: nat | k < |asked| && j in AskPlaces(asked[k], local, t) :: (k, j)
  }

  // ----- One request

  function Places(actions: seq<Action>, local: set<string>, id: string): set<nat> {
    set j: nat | j < |actions| && actions[j].id == id && actions[j].name !in local
  }

  lemma LastPlace(actions: seq<Action>, local: set<string>, id: string)
    requires actions != []
    ensures var n := |actions| - 1;
            |Places(actions, local, id)| ==
            |Places(actions[..n], local, id)| + if actions[n].id == id && actions[n].name !in local then 1 else 0
  {
    var n := |actions| - 1;
    var here: set<nat> := if actions[n].id == id && actions[n].name !in local then {n} else {};
    forall j: nat
      ensures j in Places(actions, local, id) <==> j in Places(actions[..n], local, id) || j in here
    {
      assert j < n ==> actions[..n][j] == actions[j];
    }
    Together(Places(actions[..n], local, id), here, Places(actions, local, id));
  }

  lemma Together(front: set<nat>, here: set<nat>, all: set<nat>)
    requires front !! here && forall j :: j in all <==> j in front || j in here
    ensures |all| == |front| + |here|
  {
    assert all == front + here;
  }

  lemma {:induction false} RemoteAreCounted(client: string, session: string, actions: seq<Action>, local: set<string>,
                                            t: Task)
    ensures RemoteTasks(client, session, actions, local)[t] ==
            if t.client == client && t.session == session then |Places(actions, local, t.id)| else 0
    decreases |actions|
  {
    if actions != [] {
      RemoteAreCounted(client, session, actions[..|actions| - 1], local, t);
      LastPlace(actions, local, t.id);
    }
  }

  lemma AskIsCounted(a: Ask, local: set<string>, t: Task)
    ensures AskTasks(a, local)[t] == |AskPlaces(a, local, t)|
  {
    var client, req := AddressText(a.client), RequestOf(a.msg);
    RemoteAreCounted(client, req.session, req.actions, local, t);
    if t.client == client && t.session == req.session {
      assert AskPlaces(a, local, t) == Places(req.actions, local, t.id);
    } else {
      assert AskPlaces(a, local, t) == {};
    }
  }

  // ----- All requests

  lemma {:induction false} PairsAreCounted(k: nat, js: set<nat>)
    ensures |Pairs(k, js)| == |js|
    decreases |js|
  {
    if js == {} {
      assert Pairs(k, js) == {};
    } else {
      var j :| j in js;
      PairsAreCounted(k, js - {j});
      assert (k, j) !in Pairs(k, js - {j});
      assert Pairs(k, js) == Pairs(k, js - {j}) + {(k, j)};
    }
  }

  lemma LastAsk(asked: seq<Ask>, local: set<string>, t: Task)
    requires asked != []
    ensures var n := |asked| - 1;
            |AskedPlaces(asked, local, t)| == |AskedPlaces(asked[..n], local, t)| + |AskPlaces(asked[n], local, t)|
  {
    var n := |asked| - 1;
    var front, here := AskedPlaces(asked[..n], local, t), Pairs(n, AskPlaces(asked[n], local, t));
    PairsAreCounted(n, AskPlaces(asked[n], local, t));
    forall p
      ensures p in AskedPlaces(asked, local, t) <==> p in front + here
    {
      if p in front + here {
        assert p == (p.0, p.1) && p.1 in AskPlaces(asked[p.0], local, t);
      }
    }
    assert AskedPlaces(asked, local, t) == front + here;
    assert front !! here;
  }

  /** The account counts what clients asked for action by action: a task as often as there are places, in the
      requests that its client sent in its session, with its id and a name that is not local. */
  lemma {:induction false} AskedAreCounted(asked: seq<Ask>, local: set<string>, t: Task)
    ensures AskedTasks(asked, local)[t] == |AskedPlaces(asked, local, t)|
    decreases |asked|
  {
    if asked == [] {
      assert AskedPlaces(asked, local, t) == {};
    } else {
      AskedAreCounted(asked[..|asked| - 1], local, t);
      AskIsCounted(asked[|asked| - 1], local, t);
      LastAsk(asked, local, t);
    }
  }
}
