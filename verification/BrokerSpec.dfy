/** What the broker's handlers do to its state, and what every run of them keeps. */
module BrokerSpec {
  import opened Wrappers
  import opened MdpMessage
  import opened WorkerIndex

  type Workers = map<string, Worker>

  /** A request waiting for a worker: the message that the worker will get, and the session. */
  datatype Waiting = Waiting(msg: Msg, session: string)

  /** The broker's state with everything it has sent so far to workers and to clients.  Accepted are
      the messages that client requests were turned into. */
  datatype Broker = Broker(
    workers: Workers, requests: seq<Waiting>,
    toWorkers: seq<Msg>, toClients: seq<Msg>, accepted: seq<Msg>, replied: nat)

  ghost predicate AnyIdle(ws: Workers) {
    exists id :: id in ws && ws[id].idle
  }

  ghost predicate Keyed(ws: Workers) {
    forall id :: id in ws ==> ws[id].identity == id
  }

  // ----- Sending

  /** The frames that worker_send puts before a message. */
  function ToWorker(id: string, command: string, msg: Msg): Msg {
    [Text(CStr(id)), Text(""), Text(MDPW_WORKER), Text(command)] + msg
  }

  predicate IsRequest(m: Msg) {
    |m| >= 4 && m[3] == Text(REQUEST)
  }

  /** The client messages inside the REQUESTs of a log, in order. */
  function RequestsIn(log: seq<Msg>): seq<Msg> {
    if log == [] then []
    else
      var last := log[|log| - 1];
      RequestsIn(log[..|log| - 1]) + if IsRequest(last) then [last[4..]] else []
  }

  function Messages(reqs: seq<Waiting>): seq<Msg> {
    seq(|reqs|, i requires 0 <= i < |reqs| => reqs[i].msg)
  }

  // ----- purge_workers

  function Purge(ws: Workers, now: int): (r: Workers)
    ensures forall id :: id in r <==> id in ws && !(ws[id].idle && ws[id].expiry <= now)
    ensures forall id :: id in r ==> r[id] == ws[id]
  {
    map id | id in ws && !(ws[id].idle && ws[id].expiry <= now) :: ws[id]
  }

  // ----- service_dispatch

  function Assign(ws: Workers, id: string, session: string): Workers
    requires id in ws
  {
    ws[id := ws[id].(idle := false, session := session)]
  }

  /** Whom the next request may go to: an idle worker that last worked for this session; or, when
      there is none or one that did is busy, a worker that expires last, idle or not. */
  ghost predicate MayServe(ws: Workers, session: string, id: string) {
    id in ws && ((ws[id].idle && ws[id].session == session) || (NoneFree(ws, session) && ExpiresLast(ws, id)))
  }

  ghost predicate NoneFree(ws: Workers, session: string) {
    (exists u :: u in ws && ws[u].session == session && !ws[u].idle) ||
      (forall u :: u in ws ==> ws[u].session != session)
  }

  ghost predicate ExpiresLast(ws: Workers, id: string)
    requires id in ws
  {
    forall u :: u in ws ==> ws[u].expiry <= ws[id].expiry
  }

  /** The whole queue goes out, each request to the worker chosen for it at that moment; the worker
      is marked busy, and with the session of the call. */
  ghost predicate Drained(ws: Workers, reqs: seq<Waiting>, session: string, targets: seq<string>, ws': Workers)
    decreases |reqs|
  {
    && |targets| == |reqs|
    && if reqs == [] then ws' == ws
       else
         && MayServe(ws, reqs[0].session, targets[0])
         && Drained(Assign(ws, targets[0], session), reqs[1..], session, targets[1..], ws')
  }

  function SentTo(reqs: seq<Waiting>, targets: seq<string>): seq<Msg>
    requires |reqs| == |targets|
  {
    seq(|reqs|, i requires 0 <= i < |reqs| => ToWorker(targets[i], REQUEST, reqs[i].msg))
  }

  ghost predicate Dispatched(b: Broker, now: int, session: string, targets: seq<string>, b': Broker) {
    var ws := Purge(b.workers, now);
    if AnyIdle(ws) then
      && Drained(ws, b.requests, session, targets, b'.workers)
      && b' == b.(workers := b'.workers, requests := [], toWorkers := b.toWorkers + SentTo(b.requests, targets))
    else
      targets == [] && b' == b.(workers := ws)
  }

  // ----- worker_process

  /** The clock as the handler reads it, and whom it sends requests to. */
  datatype Choice = Choice(t1: int, t2: int, t3: int, targets: seq<string>)

  function Required(ws: Workers, id: string, expiry: int): Workers {
    if id in ws then ws else ws[id := Worker(id, expiry, NO_SESSION, true)]
  }

  /** worker_waiting: idle and alive again, and then a dispatch. */
  ghost predicate WaitingStep(b: Broker, id: string, expiry: int, now: int, targets: seq<string>, b': Broker)
    requires id in b.workers
  {
    Dispatched(Refreshed(b, id, expiry), now, "", targets, b')
  }

  function Refreshed(b: Broker, id: string, expiry: int): Broker
    requires id in b.workers
  {
    b.(workers := b.workers[id := b.workers[id].(idle := true, expiry := expiry)])
  }

  /** worker_delete */
  function Deleted(b: Broker, id: string, sendDisconnect: bool): Broker {
    b.(workers := b.workers - {id},
       toWorkers := b.toWorkers + if sendDisconnect then [ToWorker(id, DISCONNECT, [])] else [])
  }

  /** The frames that a worker's reply is rewrapped into. */
  function ReplyToClient(client: string, msg: Msg): Msg {
    MdpMessage.Wrap(MdpMessage.Wrap(msg, MDPC_CLIENT, ""), client, "")
  }

  function ReplyOf(msg: Msg): Msg {
    ReplyToClient(Unwrap(msg).0, Unwrap(msg).1)
  }

  datatype Command = Ready | Reply | Heartbeat | Disconnect | Invalid

  function CommandOf(msg: Msg): Command
    requires |msg| >= 1
  {
    var command := FrameText(msg[0]);
    if command == READY then Ready
    else if command == REPLY then Reply
    else if command == HEARTBEAT then Heartbeat
    else if command == DISCONNECT then Disconnect
    else Invalid
  }

  /** A message of a worker, its command in front.  An unknown command is ignored, but its sender
      stays registered, and idle if it was not known. */
  ghost predicate WorkerStep(b: Broker, heartbeat: int, sender: string, msg: Msg, ch: Choice, b': Broker)
    requires |msg| >= 1
  {
    var r := b.(workers := Required(b.workers, sender, ch.t1 + heartbeat));
    CommandStep(CommandOf(msg), sender in b.workers, r, heartbeat, sender, msg[1..], ch, b')
  }

  ghost predicate CommandStep(command: Command, known: bool, r: Broker, heartbeat: int, sender: string, msg: Msg,
                              ch: Choice, b': Broker)
    requires sender in r.workers
  {
    match command
    case Ready => ReadyStep(known, r, heartbeat, sender, ch, b')
    case Reply => ReplyStep(known, r, heartbeat, sender, msg, ch, b')
    case Heartbeat =>
      if known then b' == r.(workers := r.workers[sender := r.workers[sender].(expiry := ch.t2 + heartbeat)])
      else b' == Deleted(r, sender, true)
    case Disconnect => b' == Deleted(r, sender, false)
    case Invalid => b' == r
  }

  /** A second READY ends the registration. */
  ghost predicate ReadyStep(known: bool, r: Broker, heartbeat: int, sender: string, ch: Choice, b': Broker)
    requires sender in r.workers
  {
    if known then b' == Deleted(r, sender, true) else WaitingStep(r, sender, ch.t2 + heartbeat, ch.t3, ch.targets, b')
  }

  /** A reply goes to its client; one without a client changes nothing. */
  ghost predicate ReplyStep(known: bool, r: Broker, heartbeat: int, sender: string, msg: Msg, ch: Choice, b': Broker)
    requires sender in r.workers
  {
    if !known then b' == Deleted(r, sender, true)
    else if Unwrap(msg).0 == "" then b' == r
    else WaitingStep(Answered(r, ReplyOf(msg)), sender, ch.t2 + heartbeat, ch.t3, ch.targets, b')
  }

  function Answered(b: Broker, reply: Msg): Broker {
    b.(toClients := b.toClients + [reply], replied := b.replied + 1)
  }

  // ----- client_process

  function Known(actions: seq<Action>, local: set<string>): seq<Action> {
    if actions == [] then []
    else (if actions[0].name in local then [actions[0]] else []) + Known(actions[1..], local)
  }

  function Unknown(actions: seq<Action>, local: set<string>): seq<Action> {
    if actions == [] then []
    else (if actions[0].name in local then [] else [actions[0]]) + Unknown(actions[1..], local)
  }

  /** send_local_to_client: nothing without a sender or a service name. */
  function LocalReply(sender: string, service: string, results: Body): seq<Msg> {
    if service == "" || sender == "" then []
    else [MdpMessage.Wrap(MdpMessage.Wrap([Json(results)], MDPC_CLIENT, service), sender, "")]
  }

  function LocalResults(n: nat): seq<Result> {
    seq(n, _ => Local)
  }

  /** The replies that the broker makes itself.  Each takes one more address off the message. */
  function LocalReplies(sender: string, msg: Msg, local: set<string>): seq<Msg> {
    var req := RequestOf(msg);
    var known := Known(req.actions, local);
    var (service, rest) := Unwrap(msg);
    var report := if req.wellFormed then [] else LocalReply(sender, service, Results(req.session, [Malformed("N/A")]));
    var service2 := if req.wellFormed then service else Unwrap(rest).0;
    report + if known == [] then [] else LocalReply(sender, service2, Results(req.session, LocalResults(|known|)))
  }

  /** What the actions that the broker does not know are turned into for a worker. */
  function Forwarded(sender: string, req: Body, local: set<string>): Msg
    requires req.Request?
  {
    MdpMessage.Wrap([Json(Request(req.session, Unknown(req.actions, local), true))], sender, "")
  }

  function LocallyAnswered(b: Broker, local: set<string>, sender: string, msg: Msg): Broker {
    b.(toClients := b.toClients + LocalReplies(sender, msg, local),
       replied := b.replied + |Known(RequestOf(msg).actions, local)|)
  }

  function Queued(b: Broker, m: Msg, session: string): Broker {
    b.(requests := b.requests + [Waiting(m, session)], accepted := b.accepted + [m])
  }

  ghost predicate ClientStep(b: Broker, local: set<string>, sender: string, msg: Msg, ch: Choice, b': Broker) {
    var req, answered := RequestOf(msg), LocallyAnswered(b, local, sender, msg);
    if Unknown(req.actions, local) == [] then b' == answered
    else
      Dispatched(Queued(answered, Forwarded(sender, req, local), req.session), ch.t1, req.session, ch.targets, b')
  }

  // ----- the heartbeat of the loop

  /** Expired idle workers go, and every idle worker left gets a heartbeat, in some order. */
  ghost predicate TickStep(b: Broker, ch: Choice, b': Broker) {
    var ws := Purge(b.workers, ch.t1);
    && (forall id :: id in ch.targets <==> id in ws && ws[id].idle)
    && (forall i, j :: 0 <= i < j < |ch.targets| ==> ch.targets[i] != ch.targets[j])
    && b' == b.(workers := ws, toWorkers := b.toWorkers + Heartbeats(ch.targets))
  }

  function Heartbeats(ids: seq<string>): seq<Msg> {
    seq(|ids|, i requires 0 <= i < |ids| => ToWorker(ids[i], HEARTBEAT, []))
  }

  // ----- What every step keeps

  /** In order, none lost and none twice: what was accepted is what was sent to workers, followed by
      what still waits. */
  ghost predicate Fifo(b: Broker) {
    b.accepted == RequestsIn(b.toWorkers) + Messages(b.requests)
  }

  /** Nothing waits while a worker is idle. */
  ghost predicate Busy(b: Broker) {
    b.requests != [] ==> !AnyIdle(b.workers)
  }

  ghost predicate Invariant(b: Broker) {
    Keyed(b.workers) && Fifo(b) && Busy(b)
  }

  lemma {:induction false} RequestsInAppend(xs: seq<Msg>, ys: seq<Msg>)
    ensures RequestsIn(xs + ys) == RequestsIn(xs) + RequestsIn(ys)
    decreases |ys|
  {
    if ys == [] {
      assert xs + ys == xs;
    } else {
      var init, last := ys[..|ys| - 1], ys[|ys| - 1];
      RequestsInAppend(xs, init);
      assert (xs + ys)[..|xs + ys| - 1] == xs + init;
      var tail := if IsRequest(last) then [last[4..]] else [];
      assert RequestsIn(xs) + (RequestsIn(init) + tail) == (RequestsIn(xs) + RequestsIn(init)) + tail;
    }
  }

  lemma {:induction false} RequestsInSent(reqs: seq<Waiting>, targets: seq<string>)
    requires |reqs| == |targets|
    ensures RequestsIn(SentTo(reqs, targets)) == Messages(reqs)
    decreases |reqs|
  {
    if reqs != [] {
      var n := |reqs| - 1;
      var sent := SentTo(reqs, targets);
      RequestsInSent(reqs[..n], targets[..n]);
      assert sent[..n] == SentTo(reqs[..n], targets[..n]);
      assert sent[n][4..] == reqs[n].msg;
      assert Messages(reqs) == Messages(reqs[..n]) + [reqs[n].msg];
    }
  }

  lemma {:induction false} NoRequestsIn(log: seq<Msg>)
    requires forall i :: 0 <= i < |log| ==> !IsRequest(log[i])
    ensures RequestsIn(log) == []
    decreases |log|
  {
    if log != [] {
      NoRequestsIn(log[..|log| - 1]);
    }
  }

  /** A drained queue leaves the same workers registered, each with its expiry. */
  lemma {:induction false} DrainKeeps(ws: Workers, reqs: seq<Waiting>, session: string, targets: seq<string>,
                                      ws': Workers)
    requires Drained(ws, reqs, session, targets, ws')
    ensures ws'.Keys == ws.Keys
    ensures forall i :: 0 <= i < |targets| ==> targets[i] in ws
    ensures forall id :: id in ws ==> ws'[id].expiry == ws[id].expiry && ws'[id].identity == ws[id].identity
    ensures forall id :: id in ws ==> ws'[id].idle == (ws[id].idle && id !in targets)
    ensures forall id :: id in ws ==> ws'[id].session == if id in targets then session else ws[id].session
    decreases |reqs|
  {
    if reqs != [] {
      DrainKeeps(Assign(ws, targets[0], session), reqs[1..], session, targets[1..], ws');
      assert targets == [targets[0]] + targets[1..];
    }
  }

  /** Every request sent from one state to the other goes to a worker that is registered then. */
  ghost predicate SentToRegistered(b: Broker, b': Broker) {
    && b.toWorkers <= b'.toWorkers
    && forall i :: |b.toWorkers| <= i < |b'.toWorkers| && IsRequest(b'.toWorkers[i]) ==>
       AddressedIn(b'.workers, b'.toWorkers[i])
  }

  ghost predicate AddressedIn(ws: Workers, m: Msg) {
    exists id :: id in ws && m == ToWorker(id, REQUEST, if |m| >= 4 then m[4..] else [])
  }

  lemma DispatchSendsToRegistered(b: Broker, now: int, session: string, targets: seq<string>, b': Broker)
    requires Dispatched(b, now, session, targets, b')
    ensures SentToRegistered(b, b')
  {
    var ws := Purge(b.workers, now);
    if AnyIdle(ws) {
      DrainKeeps(ws, b.requests, session, targets, b'.workers);
      forall i | |b.toWorkers| <= i < |b'.toWorkers|
        ensures AddressedIn(b'.workers, b'.toWorkers[i])
      {
        var k := i - |b.toWorkers|;
        var m := ToWorker(targets[k], REQUEST, b.requests[k].msg);
        assert b'.toWorkers[i] == m && m[4..] == b.requests[k].msg;
        assert targets[k] in b'.workers;
      }
    }
  }

  lemma DispatchKeeps(b: Broker, now: int, session: string, targets: seq<string>, b': Broker)
    requires Keyed(b.workers) && Fifo(b) && Dispatched(b, now, session, targets, b')
    ensures Invariant(b') && b'.accepted == b.accepted
    ensures b'.workers.Keys == Purge(b.workers, now).Keys
  {
    var ws := Purge(b.workers, now);
    if AnyIdle(ws) {
      DrainKeeps(ws, b.requests, session, targets, b'.workers);
      RequestsInSent(b.requests, targets);
      RequestsInAppend(b.toWorkers, SentTo(b.requests, targets));
      assert Messages([]) == [];
    }
  }

  /** Appending to the worker log what is no request changes no order. */
  lemma LogKeeps(b: Broker, log: seq<Msg>)
    requires Fifo(b) && forall i :: 0 <= i < |log| ==> !IsRequest(log[i])
    ensures Fifo(b.(toWorkers := b.toWorkers + log))
  {
    RequestsInAppend(b.toWorkers, log);
    NoRequestsIn(log);
    assert RequestsIn(b.toWorkers) + [] == RequestsIn(b.toWorkers);
  }

  lemma DeleteKeeps(b: Broker, id: string, sendDisconnect: bool)
    requires Keyed(b.workers) && Fifo(b)
    ensures Keyed(Deleted(b, id, sendDisconnect).workers) && Fifo(Deleted(b, id, sendDisconnect))
  {
    LogKeeps(b, if sendDisconnect then [ToWorker(id, DISCONNECT, [])] else []);
  }

  lemma ReadyStepKeeps(b: Broker, r: Broker, heartbeat: int, sender: string, ch: Choice, b': Broker)
    requires Invariant(b) && r == b.(workers := Required(b.workers, sender, ch.t1 + heartbeat))
    requires ReadyStep(sender in b.workers, r, heartbeat, sender, ch, b')
    ensures Invariant(b') && b'.accepted == b.accepted
  {
    if sender in b.workers {
      DeleteKeeps(r, sender, true);
    } else {
      WaitingKeeps(r, sender, ch.t2 + heartbeat, ch.t3, ch.targets, b');
    }
  }

  lemma ReplyStepKeeps(b: Broker, r: Broker, heartbeat: int, sender: string, msg: Msg, ch: Choice, b': Broker)
    requires Invariant(b) && r == b.(workers := Required(b.workers, sender, ch.t1 + heartbeat))
    requires ReplyStep(sender in b.workers, r, heartbeat, sender, msg, ch, b')
    ensures Invariant(b') && b'.accepted == b.accepted
  {
    if sender !in b.workers {
      UnknownLeaves(b, r, sender, true, ch.t1 + heartbeat);
    } else if Unwrap(msg).0 != "" {
      KnownStays(b, r, sender, ch.t1 + heartbeat);
      var reply, expiry := ReplyWaits(r, heartbeat, sender, msg, ch, b');
      AnsweredWaits(r, reply, sender, expiry, ch.t3, ch.targets, b');
    }
  }

  lemma ReplyWaits(b: Broker, heartbeat: int, sender: string, msg: Msg, ch: Choice, b': Broker)
    returns (reply: Msg, expiry: int)
    requires sender in b.workers && ReplyStep(true, b, heartbeat, sender, msg, ch, b') && Unwrap(msg).0 != ""
    ensures WaitingStep(Answered(b, reply), sender, expiry, ch.t3, ch.targets, b')
  {
    assert WaitingStep(Answered(b, ReplyOf(msg)), sender, ch.t2 + heartbeat, ch.t3, ch.targets, b');
    reply, expiry := ReplyOf(msg), ch.t2 + heartbeat;
  }

  lemma AnsweredWaits(b: Broker, reply: Msg, id: string, expiry: int, now: int, targets: seq<string>, b': Broker)
    requires Invariant(b) && id in b.workers && WaitingStep(Answered(b, reply), id, expiry, now, targets, b')
    ensures Invariant(b') && b'.accepted == b.accepted
  {
    AnsweredFits(b, reply);
    WaitingKeeps(Answered(b, reply), id, expiry, now, targets, b');
  }

  lemma AnsweredFits(b: Broker, reply: Msg)
    requires Keyed(b.workers) && Fifo(b)
    ensures Keyed(Answered(b, reply).workers) && Fifo(Answered(b, reply)) && Answered(b, reply).accepted == b.accepted
  {
  }

  lemma KnownStays(b: Broker, r: Broker, sender: string, expiry: int)
    requires Invariant(b) && sender in b.workers && r == b.(workers := Required(b.workers, sender, expiry))
    ensures Invariant(r) && sender in r.workers && r.accepted == b.accepted
  {
  }

  /** A sender that was not known and is deleted again leaves no trace but the message to it. */
  lemma UnknownLeaves(b: Broker, r: Broker, sender: string, sendDisconnect: bool, expiry: int)
    requires Invariant(b) && sender !in b.workers && r == b.(workers := Required(b.workers, sender, expiry))
    ensures Invariant(Deleted(r, sender, sendDisconnect))
  {
    DeleteKeeps(r, sender, sendDisconnect);
    assert Deleted(r, sender, sendDisconnect).workers == b.workers;
  }

  /** A message of a worker keeps the order and the registry's keys whatever it says.  It keeps the
      queue busy if and only if it is not an unknown command from an unknown sender while requests wait. */
  lemma WorkerStepKeeps(b: Broker, heartbeat: int, sender: string, msg: Msg, ch: Choice, b': Broker)
    requires Invariant(b) && |msg| >= 1 && WorkerStep(b, heartbeat, sender, msg, ch, b')
    ensures Keyed(b'.workers) && Fifo(b') && b'.accepted == b.accepted
    ensures Busy(b') <==> !CommandOf(msg).Invalid? || sender in b.workers || b.requests == []
  {
    var r := b.(workers := Required(b.workers, sender, ch.t1 + heartbeat));
    CommandStepKeeps(CommandOf(msg), b, r, heartbeat, sender, msg[1..], ch, b');
  }

  lemma CommandStepKeeps(command: Command, b: Broker, r: Broker, heartbeat: int, sender: string, msg: Msg,
                         ch: Choice, b': Broker)
    requires Invariant(b) && r == b.(workers := Required(b.workers, sender, ch.t1 + heartbeat))
    requires CommandStep(command, sender in b.workers, r, heartbeat, sender, msg, ch, b')
    ensures Keyed(b'.workers) && Fifo(b') && b'.accepted == b.accepted
    ensures Busy(b') <==> !command.Invalid? || sender in b.workers || b.requests == []
  {
    match command {
      case Ready => ReadyStepKeeps(b, r, heartbeat, sender, ch, b');
      case Reply => ReplyStepKeeps(b, r, heartbeat, sender, msg, ch, b');
      case Heartbeat =>
        if sender in b.workers {
          assert forall id :: id in b'.workers ==> id in b.workers && b'.workers[id].idle == b.workers[id].idle;
        } else {
          UnknownLeaves(b, r, sender, true, ch.t1 + heartbeat);
        }
      case Disconnect =>
        DeleteKeeps(r, sender, false);
        assert forall id :: id in b'.workers ==> id in b.workers && b'.workers[id] == b.workers[id];
      case Invalid =>
        if sender !in b.workers {
          assert b'.workers[sender].idle;
        }
    }
  }

  lemma WaitingKeeps(b: Broker, id: string, expiry: int, now: int, targets: seq<string>, b': Broker)
    requires Keyed(b.workers) && Fifo(b) && id in b.workers && WaitingStep(b, id, expiry, now, targets, b')
    ensures Invariant(b') && b'.accepted == b.accepted
  {
    DispatchKeeps(Refreshed(b, id, expiry), now, "", targets, b');
  }

  lemma QueuedKeeps(b: Broker, m: Msg, session: string)
    requires Fifo(b)
    ensures Fifo(Queued(b, m, session))
  {
    assert Messages(b.requests + [Waiting(m, session)]) == Messages(b.requests) + [m];
    assert RequestsIn(b.toWorkers) + (Messages(b.requests) + [m]) == b.accepted + [m];
  }

  lemma ClientStepKeeps(b: Broker, local: set<string>, sender: string, msg: Msg, ch: Choice, b': Broker)
    requires Invariant(b) && ClientStep(b, local, sender, msg, ch, b')
    ensures Invariant(b')
    ensures b'.accepted == b.accepted +
            if Unknown(RequestOf(msg).actions, local) == [] then [] else [Forwarded(sender, RequestOf(msg), local)]
  {
    var req, answered := RequestOf(msg), LocallyAnswered(b, local, sender, msg);
    if Unknown(req.actions, local) == [] {
      assert b.accepted + [] == b.accepted;
    } else {
      var m := Forwarded(sender, req, local);
      QueuedKeeps(answered, m, req.session);
      DispatchKeeps(Queued(answered, m, req.session), ch.t1, req.session, ch.targets, b');
    }
  }

  lemma TickStepKeeps(b: Broker, ch: Choice, b': Broker)
    requires Invariant(b) && TickStep(b, ch, b')
    ensures Invariant(b') && b'.accepted == b.accepted
  {
    LogKeeps(b.(workers := b'.workers), Heartbeats(ch.targets));
  }

  // ----- Who is registered

  /** Whether a message of a worker makes it wait for work again, and so leads to a dispatch. */
  ghost predicate Dispatches(b: Broker, e: Event) {
    && e.FromWorker? && |e.msg| >= 1
    && match CommandOf(e.msg)
       case Ready => e.sender !in b.workers
       case Reply => e.sender in b.workers && Unwrap(e.msg[1..]).0 != ""
       case _ => false
  }

  /** The automaton of one worker: entered by READY, left by a second READY and by DISCONNECT. */
  function NextRegistered(registered: bool, command: Command): bool {
    if command.Ready? then !registered else registered && !command.Disconnect?
  }

  /** What the event says to one worker's automaton; Invalid says nothing. */
  function CommandFor(e: Event, id: string): Command {
    if e.FromWorker? && |e.msg| >= 1 && e.sender == id then CommandOf(e.msg) else Invalid
  }

  /** When the event purges, it purges at this time. */
  function PurgeTime(e: Event, ch: Choice): int {
    if e.FromWorker? then ch.t3 else ch.t1
  }

  ghost predicate Purges(b: Broker, local: set<string>, e: Event) {
    match e
    case FromWorker(_, _) => Dispatches(b, e)
    case FromClient(_, msg) => Unknown(RequestOf(msg).actions, local) != []
    case Tick => true
  }

  /** Idle and expired at the purge; a worker that just reported is idle, and fresh. */
  ghost predicate ExpiredIdle(b: Broker, heartbeat: int, e: Event, ch: Choice, id: string) {
    if e.FromWorker? && e.sender == id then ch.t2 + heartbeat <= ch.t3
    else id in b.workers && b.workers[id].idle && b.workers[id].expiry <= PurgeTime(e, ch)
  }

  /** The state that the dispatch of a step starts from. */
  lemma DispatchOf(b: Broker, heartbeat: int, local: set<string>, e: Event, ch: Choice, b': Broker)
    returns (b0: Broker, session: string)
    requires Step(b, heartbeat, local, e, ch, b') && Purges(b, local, e) && !e.Tick?
    ensures Dispatched(b0, PurgeTime(e, ch), session, ch.targets, b')
    ensures b0.toWorkers == b.toWorkers
    ensures forall id :: id in b0.workers <==> id in b.workers || (e.FromWorker? && id == e.sender)
    ensures forall id :: id in b0.workers ==>
              if e.FromWorker? && id == e.sender
              then b0.workers[id].idle && b0.workers[id].expiry == ch.t2 + heartbeat
              else b0.workers[id] == b.workers[id]
  {
    match e
    case FromWorker(sender, msg) =>
      b0 := WorkerDispatch(b, heartbeat, sender, msg, ch, b');
      session := "";
    case FromClient(sender, msg) =>
      b0, session := ClientDispatch(b, local, sender, msg, ch, b');
  }

  lemma WorkerDispatch(b: Broker, heartbeat: int, sender: string, msg: Msg, ch: Choice, b': Broker)
    returns (b0: Broker)
    requires |msg| >= 1 && WorkerStep(b, heartbeat, sender, msg, ch, b') && Dispatches(b, FromWorker(sender, msg))
    ensures Dispatched(b0, ch.t3, "", ch.targets, b') && b0.toWorkers == b.toWorkers
    ensures sender in b0.workers && forall id :: id in b0.workers <==> id in b.workers || id == sender
    ensures b0.workers[sender].idle && b0.workers[sender].expiry == ch.t2 + heartbeat
    ensures forall id :: id in b.workers && id != sender ==> b0.workers[id] == b.workers[id]
  {
    var r := WorkerStepWaits(b, heartbeat, sender, msg, ch, b');
    b0 := RefreshedWorkers(b, r, sender, ch.t1 + heartbeat, ch.t2 + heartbeat);
  }

  lemma ClientDispatch(b: Broker, local: set<string>, sender: string, msg: Msg, ch: Choice, b': Broker)
    returns (b0: Broker, session: string)
    requires ClientStep(b, local, sender, msg, ch, b') && Unknown(RequestOf(msg).actions, local) != []
    ensures Dispatched(b0, ch.t1, session, ch.targets, b') && b0.toWorkers == b.toWorkers && b0.workers == b.workers
  {
    var req := RequestOf(msg);
    b0 := Queued(LocallyAnswered(b, local, sender, msg), Forwarded(sender, req, local), req.session);
    session := req.session;
  }

  /** A message that leads to a dispatch makes its sender wait for work. */
  lemma WorkerStepWaits(b: Broker, heartbeat: int, sender: string, msg: Msg, ch: Choice, b': Broker)
    returns (r: Broker)
    requires |msg| >= 1 && WorkerStep(b, heartbeat, sender, msg, ch, b') && Dispatches(b, FromWorker(sender, msg))
    ensures r.workers == Required(b.workers, sender, ch.t1 + heartbeat) && r.toWorkers == b.toWorkers
    ensures WaitingStep(r, sender, ch.t2 + heartbeat, ch.t3, ch.targets, b')
  {
    var r0 := b.(workers := Required(b.workers, sender, ch.t1 + heartbeat));
    r := if CommandOf(msg).Ready? then r0 else Answered(r0, ReplyOf(msg[1..]));
    CommandDispatch(CommandOf(msg), sender in b.workers, r0, heartbeat, sender, msg[1..], ch, b');
  }

  lemma CommandDispatch(command: Command, known: bool, r: Broker, heartbeat: int, sender: string, msg: Msg,
                        ch: Choice, b': Broker)
    requires sender in r.workers && CommandStep(command, known, r, heartbeat, sender, msg, ch, b')
    requires (command.Ready? && !known) || (command.Reply? && known && Unwrap(msg).0 != "")
    ensures WaitingStep(if command.Ready? then r else Answered(r, ReplyOf(msg)),
                        sender, ch.t2 + heartbeat, ch.t3, ch.targets, b')
  {
  }

  lemma RefreshedWorkers(b: Broker, r: Broker, sender: string, expiry: int, expiry': int) returns (b0: Broker)
    requires r.workers == Required(b.workers, sender, expiry)
    ensures b0 == Refreshed(r, sender, expiry') && b0.toWorkers == r.toWorkers
    ensures sender in b0.workers && forall id :: id in b0.workers <==> id in b.workers || id == sender
    ensures b0.workers[sender].idle && b0.workers[sender].expiry == expiry'
    ensures forall id :: id in b.workers && id != sender ==> b0.workers[id] == b.workers[id]
  {
    b0 := Refreshed(r, sender, expiry');
  }

  /** In every step each request goes to a worker registered at that moment. */
  lemma StepSendsToRegistered(b: Broker, heartbeat: int, local: set<string>, e: Event, ch: Choice, b': Broker)
    requires Step(b, heartbeat, local, e, ch, b')
    ensures SentToRegistered(b, b')
  {
    if Purges(b, local, e) && !e.Tick? {
      var b0, session := DispatchOf(b, heartbeat, local, e, ch, b');
      DispatchSendsToRegistered(b0, PurgeTime(e, ch), session, ch.targets, b');
    }
  }

  /** In every step of a valid command the registered workers are exactly those whose automaton says so,
      less the idle ones that a purge finds expired.  A busy worker is never purged. */
  lemma RegisteredIsAutomaton(b: Broker, heartbeat: int, local: set<string>, e: Event, ch: Choice, b': Broker,
                              id: string)
    requires Step(b, heartbeat, local, e, ch, b') && ValidEvent(e)
    ensures id in b'.workers <==>
            && NextRegistered(id in b.workers, CommandFor(e, id))
            && !(Purges(b, local, e) && ExpiredIdle(b, heartbeat, e, ch, id))
  {
    if Purges(b, local, e) && !e.Tick? {
      var b0, session := DispatchOf(b, heartbeat, local, e, ch, b');
      DispatchRegisters(b0, PurgeTime(e, ch), session, ch.targets, b');
    }
  }

  lemma DispatchRegisters(b: Broker, now: int, session: string, targets: seq<string>, b': Broker)
    requires Dispatched(b, now, session, targets, b')
    ensures b'.workers.Keys == Purge(b.workers, now).Keys
    ensures forall id :: id in b'.workers && b'.workers[id].idle ==> now < b'.workers[id].expiry
  {
    var ws := Purge(b.workers, now);
    if AnyIdle(ws) {
      DrainKeeps(ws, b.requests, session, targets, b'.workers);
    }
  }

  /** After a step that purges no idle worker is registered that had expired at the purge. */
  lemma PurgeLeavesNoneExpired(b: Broker, heartbeat: int, local: set<string>, e: Event, ch: Choice, b': Broker,
                               id: string)
    requires Step(b, heartbeat, local, e, ch, b') && Purges(b, local, e)
    requires id in b'.workers && b'.workers[id].idle
    ensures PurgeTime(e, ch) < b'.workers[id].expiry
  {
    if !e.Tick? {
      var b0, session := DispatchOf(b, heartbeat, local, e, ch, b');
      DispatchRegisters(b0, PurgeTime(e, ch), session, ch.targets, b');
    }
  }

  // ----- What is sent

  /** handle_message: the sender, and the frames after the header, when the header is the expected one. */
  function Opened(wire: Msg, origin: string): Option<(string, Msg)> {
    if wire != [] && FrameAt(wire, 2) == origin
    then Some((FrameText(wire[0]), if |wire| > 3 then wire[3..] else []))
    else None
  }

  function FrameAt(wire: Msg, i: nat): string {
    if i < |wire| then FrameText(wire[i]) else ""
  }

  /** What a step sends to clients. */
  function SentToClients(b: Broker, local: set<string>, e: Event): seq<Msg> {
    match e
    case FromWorker(sender, msg) => if Forwards(b, sender, msg) then [ReplyOf(msg[1..])] else []
    case FromClient(sender, msg) => LocalReplies(sender, msg, local)
    case Tick => []
  }

  /** A reply of a registered worker, for a client. */
  predicate Forwards(b: Broker, sender: string, msg: Msg) {
    |msg| >= 1 && CommandOf(msg).Reply? && sender in b.workers && Unwrap(msg[1..]).0 != ""
  }

  lemma StepSendsToClients(b: Broker, heartbeat: int, local: set<string>, e: Event, ch: Choice, b': Broker)
    requires Step(b, heartbeat, local, e, ch, b')
    ensures b'.toClients == b.toClients + SentToClients(b, local, e)
  {
  }

  /** The frames that the handler of a worker expects. */
  predicate IsSent(m: Msg) {
    && |m| >= 4 && m[1] == Text("") && m[2] == Text(MDPW_WORKER)
    && (m[3] == Text(REQUEST) || (|m| == 4 && (m[3] == Text(HEARTBEAT) || m[3] == Text(DISCONNECT))))
  }

  lemma DispatchSends(b: Broker, now: int, session: string, targets: seq<string>, b': Broker)
    requires Dispatched(b, now, session, targets, b')
    ensures b.toWorkers <= b'.toWorkers
    ensures forall i :: |b.toWorkers| <= i < |b'.toWorkers| ==> IsSent(b'.toWorkers[i])
  {
    if AnyIdle(Purge(b.workers, now)) {
      var sent := SentTo(b.requests, targets);
      assert forall i :: 0 <= i < |sent| ==> IsSent(sent[i]);
    }
  }

  lemma StepSends(b: Broker, heartbeat: int, local: set<string>, e: Event, ch: Choice, b': Broker)
    requires Step(b, heartbeat, local, e, ch, b')
    ensures b.toWorkers <= b'.toWorkers
    ensures forall i :: |b.toWorkers| <= i < |b'.toWorkers| ==> IsSent(b'.toWorkers[i])
  {
    if Purges(b, local, e) && !e.Tick? {
      var b0, session := DispatchOf(b, heartbeat, local, e, ch, b');
      DispatchSends(b0, PurgeTime(e, ch), session, ch.targets, b');
    }
  }

  // ----- Runs

  datatype Event =
    | FromWorker(sender: string, msg: Msg)
    | FromClient(sender: string, msg: Msg)
    | Tick

  ghost predicate Step(b: Broker, heartbeat: int, local: set<string>, e: Event, ch: Choice, b': Broker) {
    match e
    case FromWorker(sender, msg) => |msg| >= 1 && WorkerStep(b, heartbeat, sender, msg, ch, b')
    case FromClient(sender, msg) => ClientStep(b, local, sender, msg, ch, b')
    case Tick => TickStep(b, ch, b')
  }

  predicate ValidEvent(e: Event) {
    e.FromWorker? && |e.msg| >= 1 ==> !CommandOf(e.msg).Invalid?
  }

  predicate AllValid(es: seq<Event>) {
    forall i :: 0 <= i < |es| ==> ValidEvent(es[i])
  }

  const INITIAL := Broker(map[], [], [], [], [], 0)

  /** A run: the states b[0], b[1], ... with what happened between them. */
  ghost predicate IsRun(bs: seq<Broker>, heartbeat: int, local: set<string>, es: seq<Event>, chs: seq<Choice>) {
    && |bs| == |es| + 1 == |chs| + 1
    && bs[0] == INITIAL
    && forall i :: 0 <= i < |es| ==> Step(bs[i], heartbeat, local, es[i], chs[i], bs[i + 1])
  }

  /** The readings of the clock are in order, and none is later than now. */
  ghost predicate Timely(chs: seq<Choice>, now: int) {
    && (forall i :: 0 <= i < |chs| ==> chs[i].t1 <= chs[i].t2 <= chs[i].t3 <= now)
    && (forall i, j :: 0 <= i < j < |chs| ==> chs[i].t3 <= chs[j].t1)
  }

  /** A run with these events leads here by now. */
  ghost predicate Reaches(heartbeat: int, local: set<string>, es: seq<Event>, b: Broker, now: int) {
    exists bs, chs :: IsRun(bs, heartbeat, local, es, chs) && Timely(chs, now) && b == bs[|es|]
  }

  lemma StartIsReached(heartbeat: int, local: set<string>, now: int)
    ensures Reaches(heartbeat, local, [], INITIAL, now)
  {
    assert IsRun([INITIAL], heartbeat, local, [], []) && Timely([], now);
  }

  lemma RunGoesOn(bs: seq<Broker>, heartbeat: int, local: set<string>, es: seq<Event>, chs: seq<Choice>, e: Event,
                  ch: Choice, b': Broker)
    requires IsRun(bs, heartbeat, local, es, chs) && Step(bs[|es|], heartbeat, local, e, ch, b')
    ensures IsRun(bs + [b'], heartbeat, local, es + [e], chs + [ch])
  {
    var bs', es', chs' := bs + [b'], es + [e], chs + [ch];
    forall i | 0 <= i < |es'|
      ensures Step(bs'[i], heartbeat, local, es'[i], chs'[i], bs'[i + 1])
    {
      assert i < |es| ==> Step(bs[i], heartbeat, local, es[i], chs[i], bs[i + 1]);
    }
  }

  lemma TimeGoesOn(chs: seq<Choice>, now: int, ch: Choice, now': int)
    requires Timely(chs, now) && now <= ch.t1 <= ch.t2 <= ch.t3 <= now'
    ensures Timely(chs + [ch], now')
  {
  }

  lemma StepIsReached(b: Broker, heartbeat: int, local: set<string>, es: seq<Event>, now: int, e: Event, ch: Choice,
                      b': Broker, now': int)
    requires Reaches(heartbeat, local, es, b, now) && Step(b, heartbeat, local, e, ch, b')
    requires now <= ch.t1 <= ch.t2 <= ch.t3 <= now'
    ensures Reaches(heartbeat, local, es + [e], b', now')
  {
    var bs, chs :| IsRun(bs, heartbeat, local, es, chs) && Timely(chs, now) && b == bs[|es|];
    RunGoesOn(bs, heartbeat, local, es, chs, e, ch, b');
    TimeGoesOn(chs, now, ch, now');
    assert (bs + [b'])[|es + [e]|] == b';
  }

  /** The client requests of a run that were turned into worker requests, in order. */
  function AcceptedIn(es: seq<Event>, local: set<string>): seq<Msg> {
    if es == [] then []
    else
      var e := es[|es| - 1];
      AcceptedIn(es[..|es| - 1], local) +
      if e.FromClient? && Unknown(RequestOf(e.msg).actions, local) != []
      then [Forwarded(e.sender, RequestOf(e.msg), local)] else []
  }

  /** In every run of valid commands, after every event: the requests sent to workers followed by the
      queue are the accepted client requests in order, and the queue is not empty only if no
      registered worker is idle. */
  lemma {:induction false} RunIsFifo(bs: seq<Broker>, heartbeat: int, local: set<string>, es: seq<Event>,
                                     chs: seq<Choice>)
    requires IsRun(bs, heartbeat, local, es, chs) && AllValid(es)
    ensures var b := bs[|es|];
            && Invariant(b)
            && RequestsIn(b.toWorkers) + Messages(b.requests) == AcceptedIn(es, local)
            && (b.requests != [] ==> forall id :: id in b.workers ==> !b.workers[id].idle)
    decreases |es|
  {
    if es == [] {
      assert Messages([]) == [];
    } else {
      var n := |es| - 1;
      RunIsFifo(bs[..n + 1], heartbeat, local, es[..n], chs[..n]);
      var b, b', e, ch := bs[n], bs[n + 1], es[n], chs[n];
      assert Step(b, heartbeat, local, e, ch, b');
      match e {
        case FromWorker(sender, msg) => WorkerStepKeeps(b, heartbeat, sender, msg, ch, b');
        case FromClient(sender, msg) => ClientStepKeeps(b, local, sender, msg, ch, b');
        case Tick => TickStepKeeps(b, ch, b');
      }
    }
  }
}
