/** What the broker's steps mean to its clients and workers, told without the functions that make them up. */
module BrokerTheorems {
  import opened Wrappers
  import opened Selections
  import opened MdpMessage
  import opened WorkerIndex
  import opened BrokerSpec

  // ----- How a request is split

  /** The part is everything whose name is local, or everything whose name is not, in order. */
  ghost predicate IsHalf(actions: seq<Action>, local: set<string>, isLocal: bool, part: seq<Action>) {
    exists at :: Picks(actions, at, part) && AtAll(actions, local, isLocal, at)
  }

  ghost predicate AtAll(actions: seq<Action>, local: set<string>, isLocal: bool, at: seq<nat>) {
    forall j: nat :: j in at <==> j < |actions| && (actions[j].name in local) == isLocal
  }

  function Half(actions: seq<Action>, local: set<string>, isLocal: bool): seq<Action> {
    if isLocal then Known(actions, local) else Unknown(actions, local)
  }

  lemma {:induction false} HalfFrom(actions: seq<Action>, local: set<string>, isLocal: bool, k: nat)
    returns (at: seq<nat>)
    requires k <= |actions|
    ensures Picks(actions, at, Half(actions[k..], local, isLocal))
    ensures forall j: nat :: j in at <==> k <= j < |actions| && (actions[j].name in local) == isLocal
    decreases |actions| - k
  {
    if k == |actions| {
      at := [];
    } else {
      at := HalfFrom(actions, local, isLocal, k + 1);
      assert actions[k..][1..] == actions[k + 1..];
      if (actions[k].name in local) == isLocal {
        at := PickFirst(actions, k, at, Half(actions[k + 1..], local, isLocal));
      }
    }
  }

  lemma PickFirst<T>(xs: seq<T>, k: nat, at: seq<nat>, part: seq<T>) returns (at': seq<nat>)
    requires k < |xs| && Picks(xs, at, part) && forall j :: j in at ==> k < j
    ensures Picks(xs, at', [xs[k]] + part) && forall j: nat :: j in at' <==> j == k || j in at
  {
    at' := [k] + at;
    assert forall i :: 0 <= i < |at| ==> at[i] in at;
  }

  lemma {:induction false} HalvesAreAll(actions: seq<Action>, local: set<string>)
    ensures multiset(Known(actions, local)) + multiset(Unknown(actions, local)) == multiset(actions)
  {
    if actions != [] {
      HalvesAreAll(actions[1..], local);
      assert actions == [actions[0]] + actions[1..];
    }
  }

  /** Every action of a request is in one of the halves, by its name, and each half keeps the order. */
  ghost predicate IsSplit(actions: seq<Action>, local: set<string>, known: seq<Action>, unknown: seq<Action>) {
    var split :=
      && multiset(known) + multiset(unknown) == multiset(actions)
      && IsHalf(actions, local, true, known) && IsHalf(actions, local, false, unknown);
    split
  }

  lemma SplitIs(actions: seq<Action>, local: set<string>)
    ensures IsSplit(actions, local, Known(actions, local), Unknown(actions, local))
  {
    assert actions[0..] == actions;
    var at := HalfFrom(actions, local, true, 0);
    assert AtAll(actions, local, true, at);
    at := HalfFrom(actions, local, false, 0);
    assert AtAll(actions, local, false, at);
    HalvesAreAll(actions, local);
  }

  // ----- What the broker answers itself

  function SetOf(at: seq<nat>): set<nat> {
    set j | j in at
  }

  lemma OnePlaceMore(front: seq<nat>, last: nat)
    requires last !in front
    ensures |SetOf(front + [last])| == |SetOf(front)| + 1
  {
    assert SetOf(front + [last]) == SetOf(front) + {last};
  }

  lemma {:induction false} PlacesAreCounted(at: seq<nat>)
    requires Ascending(at)
    ensures |SetOf(at)| == |at|
    decreases |at|
  {
    if at != [] {
      var n := |at| - 1;
      PlacesAreCounted(at[..n]);
      OnePlaceMore(at[..n], at[n]);
      assert at[..n] + [at[n]] == at;
    }
  }

  /** The places of the actions that the broker runs itself. */
  function LocalPlaces(actions: seq<Action>, local: set<string>): set<nat> {
    set j: nat | j < |actions| && actions[j].name in local
  }

  lemma KnownAreCounted(actions: seq<Action>, local: set<string>)
    ensures |Known(actions, local)| == |LocalPlaces(actions, local)|
  {
    assert actions[0..] == actions;
    var at := HalfFrom(actions, local, true, 0);
    PlacesAreCounted(at);
    assert LocalPlaces(actions, local) == SetOf(at);
  }

  /** The frames of an answer: the client, the header, the service that it named, and results. */
  predicate IsAnswer(m: Msg, sender: string, service: string, session: string, results: seq<Result>) {
    m == [Text(CStr(sender)), Text(""), Text(MDPC_CLIENT), Text(CStr(service)), Json(Results(session, results))]
  }

  lemma HeaderIsWhole()
    ensures CStr(MDPC_CLIENT) == MDPC_CLIENT
  {
    assert forall i :: 0 <= i < |MDPC_CLIENT| ==> MDPC_CLIENT[i] != NUL;
  }

  lemma AnswerIs(sender: string, service: string, session: string, results: seq<Result>)
    ensures var replies := LocalReply(sender, service, Results(session, results));
            if sender == "" || service == "" then replies == []
            else |replies| == 1 && IsAnswer(replies[0], sender, service, session, results)
  {
    HeaderIsWhole();
  }

  /** A client that can be addressed and named a service gets a report when its message breaks off, and
      behind it one message with one result for each action that the broker runs itself, if there is one.
      The second takes the next address of the message for the service. */
  lemma ClientIsAnswered(sender: string, msg: Msg, local: set<string>)
    ensures var req, replies := RequestOf(msg), LocalReplies(sender, msg, local);
            var n, (first, rest) := |LocalPlaces(req.actions, local)|, Unwrap(msg);
            var second := if req.wellFormed then first else Unwrap(rest).0;
            var reported := !req.wellFormed && sender != "" && first != "";
            var ran := n > 0 && sender != "" && second != "";
            && |replies| == (if reported then 1 else 0) + (if ran then 1 else 0)
            && (reported ==> IsAnswer(replies[0], sender, first, req.session, [Malformed("N/A")]))
            && (ran ==> IsAnswer(replies[|replies| - 1], sender, second, req.session, seq(n, _ => Local)))
  {
    var req, n := RequestOf(msg), |LocalPlaces(RequestOf(msg).actions, local)|;
    var (first, rest) := Unwrap(msg);
    KnownAreCounted(req.actions, local);
    assert LocalResults(n) == seq(n, _ => Local);
    AnswerIs(sender, first, req.session, [Malformed("N/A")]);
    AnswerIs(sender, if req.wellFormed then first else Unwrap(rest).0, req.session, LocalResults(n));
  }

  /** A worker's reply leaves for its client with the header and an empty frame before the body. */
  lemma ReplyFrames(client: string, body: Msg)
    ensures ReplyToClient(client, body) == [Text(CStr(client)), Text(""), Text(MDPC_CLIENT), Text("")] + body
  {
    HeaderIsWhole();
  }

  // ----- What workers are sent

  /** The heartbeat of the loop sends a HEARTBEAT, and nothing else, to every worker that is idle and not
      expired, once. */
  lemma TickSends(b: Broker, ch: Choice, b': Broker)
    requires TickStep(b, ch, b')
    ensures b.toWorkers <= b'.toWorkers
    ensures var sent := b'.toWorkers[|b.toWorkers|..];
            && |sent| == |ch.targets|
            && (forall i :: 0 <= i < |sent| ==>
                  sent[i] == [Text(CStr(ch.targets[i])), Text(""), Text(MDPW_WORKER), Text(HEARTBEAT)])
            && (forall i, j :: 0 <= i < j < |sent| ==> ch.targets[i] != ch.targets[j])
            && (forall id :: id in ch.targets <==>
                  id in b.workers && b.workers[id].idle && ch.t1 < b.workers[id].expiry)
  {
  }

  /** A dispatch sends every waiting request, in order, to its worker, when a worker is idle; it marks the
      workers that it chose busy, and with the session of the call, and leaves the others as they were. */
  lemma DispatchAssigns(b: Broker, now: int, session: string, targets: seq<string>, b': Broker)
    requires Dispatched(b, now, session, targets, b')
    ensures forall id :: id in b'.workers <==> id in b.workers && !(b.workers[id].idle && b.workers[id].expiry <= now)
    ensures forall id :: id in b'.workers ==>
              b'.workers[id] ==
              if id in targets then b.workers[id].(idle := false, session := session) else b.workers[id]
    ensures if AnyIdle(Purge(b.workers, now))
            then b'.requests == [] && |targets| == |b.requests| && |b'.toWorkers| == |b.toWorkers| + |targets|
            else targets == [] && b'.requests == b.requests && b'.toWorkers == b.toWorkers
    ensures forall i :: 0 <= i < |targets| ==>
              b'.toWorkers[|b.toWorkers| + i] ==
              [Text(CStr(targets[i])), Text(""), Text(MDPW_WORKER), Text(REQUEST)] + b.requests[i].msg
  {
    var ws := Purge(b.workers, now);
    if AnyIdle(ws) {
      DrainKeeps(ws, b.requests, session, targets, b'.workers);
      DrainedWorkers(ws, session, targets, b'.workers);
    }
  }

  lemma DrainedWorkers(ws: Workers, session: string, targets: seq<string>, ws': Workers)
    requires ws'.Keys == ws.Keys
    requires forall id :: id in ws ==> ws'[id].expiry == ws[id].expiry && ws'[id].identity == ws[id].identity
    requires forall id :: id in ws ==> ws'[id].idle == (ws[id].idle && id !in targets)
    requires forall id :: id in ws ==> ws'[id].session == if id in targets then session else ws[id].session
    ensures forall id :: id in ws' ==>
              ws'[id] == if id in targets then ws[id].(idle := false, session := session) else ws[id]
  {
  }

  /** Whom a request goes to: when the workers that last worked for its session are idle, to one of them; when
      they are all busy, or there is none, to one that expires last. */
  ghost predicate GoesTo(ws: Workers, session: string, id: string) {
    && id in ws
    && ((forall u :: u in ws && ws[u].session == session ==> ws[u].idle) && HasSession(ws, session) ==>
          ws[id].session == session && ws[id].idle)
    && ((forall u :: u in ws && ws[u].session == session ==> !ws[u].idle) ==>
          forall u :: u in ws ==> ws[u].expiry <= ws[id].expiry)
  }

  ghost predicate HasSession(ws: Workers, session: string) {
    exists u :: u in ws && ws[u].session == session
  }

  lemma ServesGoesTo(ws: Workers, session: string, id: string)
    requires MayServe(ws, session, id)
    ensures GoesTo(ws, session, id)
  {
  }

  /** The first request that waits goes there among the workers that the purge leaves. */
  lemma FirstGoesTo(b: Broker, now: int, session: string, targets: seq<string>, b': Broker)
    requires Dispatched(b, now, session, targets, b') && AnyIdle(Purge(b.workers, now)) && b.requests != []
    ensures targets != [] && GoesTo(Purge(b.workers, now), b.requests[0].session, targets[0])
  {
    ServesGoesTo(Purge(b.workers, now), b.requests[0].session, targets[0]);
  }

  // ----- A worker that sends heartbeats stays

  /** A HEARTBEAT of a registered worker puts its expiry off, and changes nothing else. */
  lemma HeartbeatRefreshes(b: Broker, heartbeat: int, local: set<string>, e: Event, ch: Choice, b': Broker)
    requires Step(b, heartbeat, local, e, ch, b') && IsHeartbeat(e) && e.sender in b.workers
    ensures b' == b.(workers := b'.workers) && b'.workers.Keys == b.workers.Keys
    ensures forall id :: id in b.workers && id != e.sender ==> b'.workers[id] == b.workers[id]
    ensures var w, w' := b.workers[e.sender], b'.workers[e.sender];
            && w'.identity == w.identity && w'.idle == w.idle && w'.session == w.session
            && w'.expiry == ch.t2 + heartbeat
  {
  }

  predicate IsHeartbeat(e: Event) {
    e.FromWorker? && |e.msg| >= 1 && FrameText(e.msg[0]) == HEARTBEAT
  }

  /** The worker itself ends its registration: a READY when it is registered, or a DISCONNECT. */
  predicate Leaves(e: Event, id: string) {
    && e.FromWorker? && e.sender == id && |e.msg| >= 1
    && (FrameText(e.msg[0]) == READY || FrameText(e.msg[0]) == DISCONNECT)
  }

  /** Registered, and not to expire before the time. */
  ghost predicate AliveUntil(b: Broker, id: string, time: int) {
    id in b.workers && time <= b.workers[id].expiry
  }

  lemma AliveThroughStep(b: Broker, heartbeat: int, local: set<string>, e: Event, ch: Choice, b': Broker, id: string,
                         time: int)
    requires Step(b, heartbeat, local, e, ch, b') && AliveUntil(b, id, time) && !Leaves(e, id)
    requires ch.t1 <= ch.t3 < time <= ch.t2 + heartbeat
    ensures AliveUntil(b', id, time)
  {
    if Purges(b, local, e) && !e.Tick? {
      var b0, session := DispatchOf(b, heartbeat, local, e, ch, b');
      DispatchAssigns(b0, PurgeTime(e, ch), session, ch.targets, b');
    }
  }

  /** What keeps a worker alive: a HEARTBEAT when it is registered, a READY when it is not, and a REPLY with
      a client when it is. */
  predicate ShowsLife(b: Broker, e: Event) {
    && e.FromWorker? && |e.msg| >= 1
    && var command := FrameText(e.msg[0]);
       if e.sender in b.workers then command == HEARTBEAT || (command == REPLY && Unwrap(e.msg[1..]).0 != "")
       else command == READY
  }

  lemma LifeStep(b: Broker, heartbeat: int, local: set<string>, e: Event, ch: Choice, b': Broker)
    requires Step(b, heartbeat, local, e, ch, b') && ShowsLife(b, e) && ch.t3 < ch.t2 + heartbeat
    ensures AliveUntil(b', e.sender, ch.t2 + heartbeat)
  {
    if IsHeartbeat(e) {
      HeartbeatRefreshes(b, heartbeat, local, e, ch, b');
    } else {
      var b0, session := DispatchOf(b, heartbeat, local, e, ch, b');
      DispatchAssigns(b0, PurgeTime(e, ch), session, ch.targets, b');
    }
  }

  /** In every run in which the clock does not go back: a worker whose HEARTBEAT, READY or REPLY was handled at
      a time is registered at every moment before the expiry interval has passed since, whatever happens,
      unless it itself sends another READY or DISCONNECT. */
  lemma {:induction false} LifeSignKeepsAlive(bs: seq<Broker>, heartbeat: int, local: set<string>, es: seq<Event>,
                                              chs: seq<Choice>, now: int, k: nat, m: nat, id: string)
    requires IsRun(bs, heartbeat, local, es, chs) && Timely(chs, now)
    requires k < m <= |es| && ShowsLife(bs[k], es[k]) && es[k].sender == id
    requires forall i :: k <= i < m ==> chs[i].t3 < chs[k].t2 + heartbeat
    requires forall i :: k < i < m ==> !Leaves(es[i], id)
    ensures AliveUntil(bs[m], id, chs[k].t2 + heartbeat)
    decreases m
  {
    if m == k + 1 {
      LifeStep(bs[k], heartbeat, local, es[k], chs[k], bs[m]);
    } else {
      LifeSignKeepsAlive(bs, heartbeat, local, es, chs, now, k, m - 1, id);
      AliveThroughStep(bs[m - 1], heartbeat, local, es[m - 1], chs[m - 1], bs[m], id, chs[k].t2 + heartbeat);
    }
  }
}
