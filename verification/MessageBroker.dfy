/** The broker: its handlers, as methods on its state, each proved to make a step of BrokerSpec. */
module MessageBroker {
  import opened MdpMessage
  import opened WorkerIndex
  import opened WorkerContainer
  import opened BrokerSpec
  import opened BrokerTheorems
  import opened ZmqMessage

  lemma {:induction false} DrainOneMore(ws: Workers, reqs: seq<Waiting>, session: string, targets: seq<string>,
                                        ws1: Workers, r: Waiting, id: string)
    requires Drained(ws, reqs, session, targets, ws1) && MayServe(ws1, r.session, id)
    ensures Drained(ws, reqs + [r], session, targets + [id], Assign(ws1, id, session))
    decreases |reqs|
  {
    if reqs == [] {
      assert (reqs + [r])[1..] == [] && (targets + [id])[1..] == [];
    } else {
      DrainOneMore(Assign(ws, targets[0], session), reqs[1..], session, targets[1..], ws1, r, id);
      assert (reqs + [r])[1..] == reqs[1..] + [r] && (targets + [id])[1..] == targets[1..] + [id];
    }
  }

  /** What a round of the loop finds: a message on one of the sockets, or that it is time for heartbeats. */
  datatype Poll = OnInternal(wire: Msg) | OnExternal(wire: Msg) | HeartbeatTime

  /** The event of a poll; a message with a wrong header is none. */
  function EventOf(poll: Poll): (r: seq<Event>)
    ensures |r| <= 1
  {
    match poll
    case OnInternal(wire) =>
      var m := Opened(wire, MDPW_WORKER); if m.Some? then [FromWorker(m.value.0, m.value.1)] else []
    case OnExternal(wire) =>
      var m := Opened(wire, MDPC_CLIENT); if m.Some? then [FromClient(m.value.0, m.value.1)] else []
    case HeartbeatTime => [BrokerSpec.Tick]
  }

  function EventsOf(polls: seq<Poll>): seq<Event> {
    if polls == [] then [] else EventOf(polls[0]) + EventsOf(polls[1..])
  }

  /** What the handlers assert: a worker's message has a command, and a client's a service name and a body. */
  predicate Readable(poll: Poll) {
    match poll
    case OnInternal(wire) => var m := Opened(wire, MDPW_WORKER); m.Some? ==> m.value.1 != []
    case OnExternal(wire) => var m := Opened(wire, MDPC_CLIENT); m.Some? ==> |m.value.1| >= 2
    case HeartbeatTime => true
  }

  predicate AllReadable(polls: seq<Poll>) {
    forall i :: 0 <= i < |polls| ==> Readable(polls[i])
  }

  lemma ReachedIsFifo(heartbeat: int, local: set<string>, es: seq<Event>, b: Broker, now: int)
    requires Reaches(heartbeat, local, es, b, now)
    ensures AllValid(es) ==> RequestsIn(b.toWorkers) + Messages(b.requests) == AcceptedIn(es, local)
  {
    var bs, chs :| IsRun(bs, heartbeat, local, es, chs) && Timely(chs, now) && b == bs[|es|];
    if AllValid(es) {
      RunIsFifo(bs, heartbeat, local, es, chs);
    }
  }

  /** The handler read the clock in order, between these times. */
  ghost predicate InTime(before: int, ch: Choice, after: int) {
    before <= ch.t1 <= ch.t2 <= ch.t3 <= after
  }

  class MessageBroker {
    const container: WorkerContainer
    // the names of the actions that the broker runs itself
    const local: set<string>
    var requests: seq<Waiting>
    var replied: nat
    // everything sent on the sockets to workers and to clients
    var internalSocket: seq<Msg>
    var externalSocket: seq<Msg>
    var clock: int
    ghost var accepted: seq<Msg>

    ghost predicate Valid()
      reads this, container
    {
      container.Valid()
    }

    ghost function State(): Broker
      reads this, container
    {
      Broker(container.workers, requests, internalSocket, externalSocket, accepted, replied)
    }

    constructor (heartbeatExpiry: int, local: set<string>)
      ensures Valid() && State() == INITIAL && fresh(container)
      ensures container.heartbeatExpiry == heartbeatExpiry && this.local == local
    {
      container := new WorkerContainer(heartbeatExpiry);
      this.local := local;
      requests, replied, internalSocket, externalSocket, clock, accepted := [], 0, [], [], 0, [];
    }

    /** A reading of the clock, which never goes back. */
    method Now() returns (t: int)
      modifies this`clock
      ensures old(clock) <= t == clock
    {
      t :| clock <= t;
      clock := t;
    }

    method WorkerSend(id: string, command: string, msg: Msg)
      modifies this`internalSocket
      ensures internalSocket == old(internalSocket) + [ToWorker(id, command, msg)]
    {
      internalSocket := internalSocket + [ToWorker(id, command, msg)];
    }

    method WorkerDelete(id: string, sendDisconnect: bool)
      requires Valid()
      modifies this`internalSocket, container
      ensures Valid() && State() == Deleted(old(State()), id, sendDisconnect)
    {
      if sendDisconnect {
        WorkerSend(id, DISCONNECT, []);
      }
      var _ := container.Erase(id);
    }

    /** Collects the idle workers that have expired, and then deletes them. */
    method PurgeWorkers() returns (now: int)
      requires Valid()
      modifies this`clock, container
      ensures Valid() && old(clock) <= now == clock
      ensures container.workers == Purge(old(container.workers), now)
    {
      now := Now();
      var idle := container.IdleWorkers();
      ghost var before := container.workers;
      var toCull: seq<string> := [];
      for i := 0 to |idle|
        modifies {}
        invariant forall id :: id in toCull <==>
                    exists j :: 0 <= j < i && idle[j].expiry <= now && idle[j].identity == id
      {
        if idle[i].expiry <= now {
          toCull := toCull + [idle[i].identity];
        }
      }
      forall id | id in before
        ensures id in toCull <==> before[id].idle && before[id].expiry <= now
      {
        if before[id].idle {
          var j :| 0 <= j < |idle| && idle[j] == before[id];
        }
      }
      for i := 0 to |toCull|
        modifies container
        invariant container.Valid()
        invariant container.workers == map id | id in before && id !in toCull[..i] :: before[id]
      {
        var _ := container.Erase(toCull[i]);
      }
      assert container.workers == Purge(before, now);
    }

    /** service_dispatch without a message: purges, and when a worker is idle then sends out the
        whole queue. */
    method ServiceDispatch(session: string) returns (ghost now: int, ghost targets: seq<string>)
      requires Valid()
      modifies this`clock, this`requests, this`internalSocket, container
      ensures Valid() && old(clock) <= now == clock
      ensures Dispatched(old(State()), now, session, targets, State())
    {
      now := PurgeWorkers();
      targets := [];
      ghost var ws := container.workers;
      var idle := container.IdleWorkers();
      if idle == [] {
        assert !AnyIdle(ws);
        return;
      }
      assert idle[0] in idle && ws[idle[0].identity] == idle[0];
      assert AnyIdle(ws);
      targets := DrainQueue(session);
    }

    /** The loop of service_dispatch. */
    method DrainQueue(session: string) returns (ghost targets: seq<string>)
      requires Valid() && container.workers != map[]
      modifies this`requests, this`internalSocket, container
      ensures Valid() && requests == []
      ensures Drained(old(container.workers), old(requests), session, targets, container.workers)
      ensures internalSocket == old(internalSocket) + SentTo(old(requests), targets)
    {
      targets := [];
      ghost var ws, reqs, sent := container.workers, requests, internalSocket;
      assert reqs[..0] == [] && SentTo([], []) == [];
      while requests != []
        invariant Valid() && container.workers != map[]
        invariant |targets| <= |reqs| && requests == reqs[|targets|..]
        invariant Drained(ws, reqs[..|targets|], session, targets, container.workers)
        invariant internalSocket == sent + SentTo(reqs[..|targets|], targets)
        decreases |requests|
      {
        ghost var before := container.workers;
        var id := ServeOne(session);
        ServeOneMore(ws, reqs, session, targets, before, id);
        targets := targets + [id];
      }
      assert reqs[..|targets|] == reqs;
    }

    method ServeOne(session: string) returns (id: string)
      requires Valid() && container.workers != map[] && requests != []
      modifies this`requests, this`internalSocket, container
      ensures Valid() && container.workers != map[]
      ensures MayServe(old(container.workers), old(requests)[0].session, id)
      ensures container.workers == Assign(old(container.workers), id, session)
      ensures requests == old(requests)[1..]
      ensures internalSocket == old(internalSocket) + [ToWorker(id, REQUEST, old(requests)[0].msg)]
    {
      var front := requests[0];
      id := Choose(front.session);
      requests := requests[1..];
      WorkerSend(id, REQUEST, front.msg);
      var _ := container.ModifyIdle(id, false);
      container.UpdateLastWorked(id, session);
    }

    /** The worker for the next request: one that is idle and last worked for the session, if the
        first that did is idle; otherwise the one that expires last. */
    method Choose(session: string) returns (id: string)
      requires Valid() && container.workers != map[]
      ensures MayServe(container.workers, session, id) && GoesTo(container.workers, session, id)
    {
      var last := container.GetByLastWorkedSession(session);
      if last.None? || !last.value.idle {
        var next := container.GetNextWorker();
        id := next.value.identity;
      } else {
        id := last.value.identity;
      }
      ServesGoesTo(container.workers, session, id);
    }

    method WorkerRequire(id: string) returns (t1: int)
      requires Valid()
      modifies this`clock, container
      ensures Valid() && old(clock) <= t1 == clock
      ensures container.workers == Required(old(container.workers), id, t1 + container.heartbeatExpiry)
    {
      t1 := Now();
      var exists_ := container.Exists(id);
      if !exists_ {
        container.Insert(Worker(id, 0, NO_SESSION, true), t1);
      }
    }

    method WorkerWaiting(id: string) returns (ghost t2: int, ghost t3: int, ghost targets: seq<string>)
      requires Valid() && id in container.workers
      modifies this`clock, this`requests, this`internalSocket, container
      ensures Valid() && old(clock) <= t2 <= t3 == clock
      ensures WaitingStep(old(State()), id, t2 + container.heartbeatExpiry, t3, targets, State())
    {
      var _ := container.ModifyIdle(id, true);
      var now := Now();
      t2 := now;
      container.UpdateExpiration(id, now);
      assert State() == Refreshed(old(State()), id, now + container.heartbeatExpiry);
      t3, targets := ServiceDispatch("");
    }

    /** worker_process */
    method WorkerProcess(sender: string, msg: Msg) returns (ghost ch: Choice)
      requires Valid() && |msg| >= 1
      modifies this, container
      ensures Valid() && InTime(old(clock), ch, clock)
      ensures WorkerStep(old(State()), container.heartbeatExpiry, sender, msg, ch, State())
    {
      var known := container.Exists(sender);
      ghost var t1 := WorkerRequire(sender);
      ghost var required := Required(old(container.workers), sender, t1 + container.heartbeatExpiry);
      assert State() == old(State()).(workers := required);
      ch := ProcessCommand(CommandOf(msg), known, sender, msg[1..], t1);
    }

    method ProcessCommand(command: Command, known: bool, sender: string, msg: Msg, ghost t1: int)
      returns (ghost ch: Choice)
      requires Valid() && sender in container.workers && t1 == clock
      modifies this, container
      ensures Valid() && ch.t1 == t1 && InTime(t1, ch, clock)
      ensures CommandStep(command, known, old(State()), container.heartbeatExpiry, sender, msg, ch, State())
    {
      match command {
        case Ready => ch := ProcessReady(known, sender, t1);
        case Reply => ch := ProcessReply(known, sender, msg, t1);
        case Heartbeat =>
          ch := Choice(t1, t1, t1, []);
          if known {
            var now := Now();
            container.UpdateExpiration(sender, now);
            ch := Choice(t1, now, now, []);
          } else {
            WorkerDelete(sender, true);
          }
        case Disconnect =>
          ch := Choice(t1, t1, t1, []);
          WorkerDelete(sender, false);
        case Invalid => ch := Choice(t1, t1, t1, []);
      }
    }

    method ProcessReady(known: bool, sender: string, ghost t1: int) returns (ghost ch: Choice)
      requires Valid() && sender in container.workers && t1 == clock
      modifies this, container
      ensures Valid() && ch.t1 == t1 && InTime(t1, ch, clock)
      ensures ReadyStep(known, old(State()), container.heartbeatExpiry, sender, ch, State())
    {
      ch := Choice(t1, t1, t1, []);
      if known {
        WorkerDelete(sender, true);
      } else {
        ghost var t2, t3, targets := WorkerWaiting(sender);
        ch := Choice(t1, t2, t3, targets);
      }
    }

    method ForwardReply(msg: Msg)
      modifies this`externalSocket, this`replied
      ensures State() == Answered(old(State()), ReplyOf(msg))
    {
      var (client, body) := Unwrap(msg);
      externalSocket := externalSocket + [ReplyToClient(client, body)];
      replied := replied + 1;
    }

    method AnswerClient(msg: Msg, sender: string, ghost t1: int) returns (ghost ch: Choice)
      requires Valid() && sender in container.workers && t1 == clock
      modifies this, container
      ensures Valid() && ch.t1 == t1 && InTime(t1, ch, clock)
      ensures WaitingStep(Answered(old(State()), ReplyOf(msg)), sender, ch.t2 + container.heartbeatExpiry,
                          ch.t3, ch.targets, State())
    {
      ForwardReply(msg);
      ghost var b := State();
      assert b == Answered(old(State()), ReplyOf(msg));
      ghost var t2, t3, targets := WorkerWaiting(sender);
      ch := Choice(t1, t2, t3, targets);
    }

    method ProcessReply(known: bool, sender: string, msg: Msg, ghost t1: int) returns (ghost ch: Choice)
      requires Valid() && sender in container.workers && t1 == clock
      modifies this, container
      ensures Valid() && ch.t1 == t1 && InTime(t1, ch, clock)
      ensures ReplyStep(known, old(State()), container.heartbeatExpiry, sender, msg, ch, State())
    {
      if known && Unwrap(msg).0 != "" {
        ch := AnswerClient(msg, sender, t1);
      } else {
        ch := Choice(t1, t1, t1, []);
        if !known {
          WorkerDelete(sender, true);
        }
      }
    }

    /** The actions that the broker runs itself, and those left to the workers. */
    method SplitActions(actions: seq<Action>) returns (known: seq<Action>, unknown: seq<Action>)
      ensures known == Known(actions, local) && unknown == Unknown(actions, local)
      ensures IsSplit(actions, local, known, unknown)
    {
      known, unknown := [], [];
      for i := 0 to |actions|
        invariant known + Known(actions[i..], local) == Known(actions, local)
        invariant unknown + Unknown(actions[i..], local) == Unknown(actions, local)
      {
        var action := actions[i];
        assert actions[i..][1..] == actions[i + 1..];
        if action.name in local {
          known := known + [action];
        } else {
          unknown := unknown + [action];
        }
      }
      SplitIs(actions, local);
    }

    /** client_process */
    method ClientProcess(sender: string, msg: Msg) returns (ghost ch: Choice)
      requires Valid()
      modifies this, container
      ensures Valid() && InTime(old(clock), ch, clock)
      ensures ClientStep(old(State()), local, sender, msg, ch, State())
    {
      var req := RequestOf(msg);
      var known, unknown := SplitActions(req.actions);
      AnswerLocally(sender, msg, req, known);
      ch := Choice(clock, clock, clock, []);
      if unknown != [] {
        var m := MdpMessage.Wrap([Json(Request(req.session, unknown, true))], sender, "");
        assert m == Forwarded(sender, req, local);
        ghost var now, targets := QueueAndDispatch(m, req.session);
        ch := Choice(now, now, now, targets);
      }
    }

    /** service_dispatch with a message. */
    method QueueAndDispatch(m: Msg, session: string) returns (ghost now: int, ghost targets: seq<string>)
      requires Valid()
      modifies this`clock, this`requests, this`accepted, this`internalSocket, container
      ensures Valid() && old(clock) <= now == clock
      ensures Dispatched(Queued(old(State()), m, session), now, session, targets, State())
    {
      requests, accepted := requests + [Waiting(m, session)], accepted + [m];
      now, targets := ServiceDispatch(session);
    }

    method AnswerLocally(sender: string, msg: Msg, req: Body, known: seq<Action>)
      requires req == RequestOf(msg) && known == Known(req.actions, local)
      modifies this`externalSocket, this`replied
      ensures State() == LocallyAnswered(old(State()), local, sender, msg)
    {
      var (service, rest) := Unwrap(msg);
      if !req.wellFormed {
        externalSocket := externalSocket + LocalReply(sender, service, Results(req.session, [Malformed("N/A")]));
        service := Unwrap(rest).0;
      }
      if known != [] {
        externalSocket := externalSocket + LocalReply(sender, service, Results(req.session, LocalResults(|known|)));
        replied := replied + |known|;
      }
    }

    /** handle_message on the worker socket: only a message with the worker header is processed. */
    method HandleInternal(wire: Msg) returns (ghost ch: Choice)
      requires Valid()
      // the handler asserts that the command is there
      requires var m := Opened(wire, MDPW_WORKER); m.Some? ==> m.value.1 != []
      modifies this, container
      ensures Valid() && InTime(old(clock), ch, clock)
      ensures var m := Opened(wire, MDPW_WORKER);
              if m.Some? then WorkerStep(old(State()), container.heartbeatExpiry, m.value.0, m.value.1, ch, State())
              else State() == old(State())
    {
      ch := Choice(clock, clock, clock, []);
      var header, sender, msg := OpenMessage(wire);
      if wire != [] && header == MDPW_WORKER {
        ch := WorkerProcess(sender, msg);
      }
    }

    /** handle_message on the client socket. */
    method HandleExternal(wire: Msg) returns (ghost ch: Choice)
      requires Valid()
      // the handler asserts that there are a service name and a body
      requires var m := Opened(wire, MDPC_CLIENT); m.Some? ==> |m.value.1| >= 2
      modifies this, container
      ensures Valid() && InTime(old(clock), ch, clock)
      ensures var m := Opened(wire, MDPC_CLIENT);
              if m.Some? then ClientStep(old(State()), local, m.value.0, m.value.1, ch, State())
              else State() == old(State())
    {
      ch := Choice(clock, clock, clock, []);
      var header, sender, msg := OpenMessage(wire);
      if wire != [] && header == MDPC_CLIENT {
        ch := ClientProcess(sender, msg);
      }
    }

    /** Pops the sender, the empty frame and the header. */
    method OpenMessage(wire: Msg) returns (header: string, sender: string, msg: Msg)
      ensures header == FrameAt(wire, 2) && sender == FrameAt(wire, 0)
      ensures msg == if |wire| > 3 then wire[3..] else []
    {
      var message := new Zmsg();
      message.parts := wire;
      var front := message.PopFront();
      var empty := message.PopFront();
      var third := message.PopFront();
      header, sender, msg := FrameText(third), FrameText(front), message.parts;
    }

    /** The heartbeat of the loop: purge, and a heartbeat to every idle worker. */
    method Tick() returns (ghost ch: Choice)
      requires Valid()
      modifies this, container
      ensures Valid() && InTime(old(clock), ch, clock)
      ensures TickStep(old(State()), ch, State())
    {
      var now := PurgeWorkers();
      var idle := container.IdleWorkers();
      ghost var ids: seq<string>, log := [], internalSocket;
      for i := 0 to |idle|
        modifies this`internalSocket
        invariant |ids| == i && forall j :: 0 <= j < i ==> ids[j] == idle[j].identity
        invariant internalSocket == log + Heartbeats(ids)
      {
        WorkerSend(idle[i].identity, HEARTBEAT, []);
        assert Heartbeats(ids + [idle[i].identity]) == Heartbeats(ids) + [ToWorker(idle[i].identity, HEARTBEAT, [])];
        ids := ids + [idle[i].identity];
      }
      forall id | id in container.workers && container.workers[id].idle
        ensures id in ids
      {
        var j :| 0 <= j < |idle| && idle[j] == container.workers[id];
        assert ids[j] == id;
      }
      ch := Choice(now, now, now, ids);
    }

    /** broker_loop, until the broker is interrupted after the given polls.  Whatever the clock says,
        the execution is a run of the specification whose events are those of the polls; so with valid
        commands the requests sent and those that wait are the accepted ones, in order. */
    method BrokerLoop(polls: seq<Poll>)
      requires Valid() && State() == INITIAL && AllReadable(polls)
      modifies this, container
      ensures Valid() && Reaches(container.heartbeatExpiry, local, EventsOf(polls), State(), clock)
      ensures AllValid(EventsOf(polls)) ==>
                RequestsIn(internalSocket) + Messages(requests) == AcceptedIn(EventsOf(polls), local)
    {
      ghost var es: seq<Event> := [];
      var rest := polls;
      StartIsReached(container.heartbeatExpiry, local, clock);
      while rest != []
        invariant Running(es) && AllReadable(rest) && es + EventsOf(rest) == EventsOf(polls)
        decreases |rest|
      {
        ghost var more := HandlePoll(rest[0], es);
        OneMoreEvent(es, more, rest);
        es, rest := es + more, rest[1..];
      }
      assert es == EventsOf(polls);
      ReachedIsFifo(container.heartbeatExpiry, local, es, State(), clock);
    }

    /** The execution so far is a run of the specification with these events. */
    ghost predicate Running(es: seq<Event>)
      reads this, container
    {
      var running := Valid() && Reaches(container.heartbeatExpiry, local, es, State(), clock);
      running
    }

    method HandlePoll(poll: Poll, ghost es: seq<Event>) returns (ghost more: seq<Event>)
      requires Running(es) && Readable(poll)
      modifies this, container
      ensures Running(es + more) && more == EventOf(poll)
    {
      ghost var b, now := State(), clock;
      ghost var ch: Choice;
      match poll {
        case OnInternal(wire) => ch := HandleInternal(wire);
        case OnExternal(wire) => ch := HandleExternal(wire);
        case HeartbeatTime => ch := Tick();
      }
      more := EventOf(poll);
      if more == [] {
        assert es + more == es;
        ReachedLater(container.heartbeatExpiry, local, es, b, now, clock);
      } else {
        StepIsReached(b, container.heartbeatExpiry, local, es, now, more[0], ch, State(), clock);
      }
    }
  }

  lemma ReachedLater(heartbeat: int, local: set<string>, es: seq<Event>, b: Broker, now: int, now': int)
    requires Reaches(heartbeat, local, es, b, now) && now <= now'
    ensures Reaches(heartbeat, local, es, b, now')
  {
    var bs, chs :| IsRun(bs, heartbeat, local, es, chs) && Timely(chs, now) && b == bs[|es|];
    assert Timely(chs, now');
  }

  lemma OneMoreEvent(es: seq<Event>, more: seq<Event>, polls: seq<Poll>)
    requires polls != [] && more == EventOf(polls[0])
    ensures es + more + EventsOf(polls[1..]) == es + EventsOf(polls)
  {
  }

  lemma ServeOneMore(ws: Workers, reqs: seq<Waiting>, session: string, targets: seq<string>, ws1: Workers, id: string)
    requires |targets| < |reqs| && Drained(ws, reqs[..|targets|], session, targets, ws1)
    requires MayServe(ws1, reqs[|targets|].session, id)
    ensures Drained(ws, reqs[..|targets| + 1], session, targets + [id], Assign(ws1, id, session))
    ensures SentTo(reqs[..|targets| + 1], targets + [id]) ==
            SentTo(reqs[..|targets|], targets) + [ToWorker(id, REQUEST, reqs[|targets|].msg)]
  {
    var k := |targets|;
    assert reqs[..k + 1] == reqs[..k] + [reqs[k]];
    DrainOneMore(ws, reqs[..k], session, targets, ws1, reqs[k], id);
  }
}
