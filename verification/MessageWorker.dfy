/** The worker: its handlers, as methods on its state, whose every execution is a run of WorkerSpec. */
module MessageWorker {
  import opened Wrappers
  import opened MdpMessage
  import opened PostponedActions
  import opened ZmqMessage
  import opened Tasks
  import opened WorkerSpec

  /** What a run of an action, or the reading of its message, ends in. */
  datatype ActStatus = SUCCEEDED | FAILED | POSTPONED | THREW

  /** A run of an action, and what it ended in. */
  datatype Acted = Acted(action: Action, result: ActStatus)

  predicate NoneThrew(log: seq<Acted>) {
    forall i :: 0 <= i < |log| ==> log[i].result != THREW
  }

  /** The run is of this action, and ended in what the status says. */
  predicate EndedAs(run: Acted, a: Action, status: Status) {
    && run.action == a
    && match run.result
       case SUCCEEDED => status.Succeeded?
       case FAILED => status.Failed?
       case POSTPONED => status.Postponed?
       case THREW => false
  }

  /** The runs are of the first of the due actions, in order, each once. */
  predicate DueRan(due: seq<Entry>, statuses: seq<Status>, runs: seq<Acted>) {
    && |runs| == |statuses| <= |due|
    && forall i :: 0 <= i < |runs| ==> EndedAs(runs[i], due[i].action, statuses[i])
  }

  /** From a state with these due actions the given runs were made, and the other actions are still due. */
  ghost predicate RanSince(cfg: Config, w: State, due: seq<Entry>, now: int, statuses: seq<Status>, runs: seq<Acted>,
                           w': State)
  {
    var since :=
      && RunsTo(cfg, w, now, statuses, w') && w' == w'.(phase := w.phase, taken := w.taken, cutOff := w.cutOff)
      && DueRan(due, statuses, runs) && Due(w'.queue, now) == due[|statuses|..];
    since
  }

  /** The run that the worker dies of, if it dies. */
  function DyingRun(due: seq<Entry>, statuses: seq<Status>, died: bool): seq<Acted>
    requires died ==> |statuses| < |due|
  {
    if died then [Acted(due[|statuses|].action, THREW)] else []
  }

  lemma TopIsNext(queue: seq<Entry>, now: int, due: seq<Entry>, n: nat)
    requires queue != [] && queue[0].expiration <= now && n <= |due| && Due(queue, now) == due[n..]
    ensures n < |due| && due[n] == queue[0]
  {
    assert Due(queue, now)[0] == queue[0];
  }

  lemma DueRanMore(due: seq<Entry>, statuses: seq<Status>, runs: seq<Acted>, status: Status, run: Acted)
    requires DueRan(due, statuses, runs) && |statuses| < |due| && EndedAs(run, due[|statuses|].action, status)
    ensures DueRan(due, statuses + [status], runs + [run])
  {
  }

  lemma OneMoreDue(cfg: Config, w: State, due: seq<Entry>, now: int, statuses: seq<Status>, runs: seq<Acted>,
                   w1: State, status: Status, run: Acted)
    requires RanSince(cfg, w, due, now, statuses, runs, w1) && IsQueue(w1.queue)
    requires Enabled(cfg, w1, RunTop(now, status)) && EndedAs(run, w1.queue[0].action, status)
    ensures RanSince(cfg, w, due, now, statuses + [status], runs + [run], RanTop(w1, status))
  {
    TopIsNext(w1.queue, now, due, |statuses|);
    DueRanMore(due, statuses, runs, status, run);
    RanTopDue(cfg, w1, now, status);
    assert due[|statuses|..][1..] == due[|statuses| + 1..];
    RunsOneMore(cfg, w, now, statuses, w1, status);
  }

  /** The runs are of the first actions of a request, in order, each once, but for those whose name is not
      known. */
  predicate ActionsRan(registered: set<string>, actions: seq<Action>, statuses: seq<Status>, runs: seq<Acted>)
    requires |statuses| <= |actions|
    decreases |statuses|
  {
    if statuses == [] then runs == []
    else
      var n, k := |statuses| - 1, |runs| - 1;
      if actions[n].name !in registered then ActionsRan(registered, actions, statuses[..n], runs)
      else
        && k >= 0 && EndedAs(runs[k], actions[n], statuses[n])
        && ActionsRan(registered, actions, statuses[..n], runs[..k])
  }

  /** The run that breaks a request off, if one does. */
  function Breaking(actions: seq<Action>, statuses: seq<Status>): seq<Acted> {
    if |statuses| < |actions| then [Acted(actions[|statuses|], THREW)] else []
  }

  lemma OneMoreRan(registered: set<string>, actions: seq<Action>, statuses: seq<Status>, runs: seq<Acted>,
                   status: Status, more: seq<Acted>)
    requires |statuses| < |actions| && ActionsRan(registered, actions, statuses, runs)
    requires if actions[|statuses|].name !in registered then more == []
             else |more| == 1 && EndedAs(more[0], actions[|statuses|], status)
    ensures ActionsRan(registered, actions, statuses + [status], runs + more)
  {
    var n := |statuses|;
    assert (statuses + [status])[..n] == statuses;
    if more == [] {
      assert runs + more == runs;
    } else {
      assert (runs + more)[..|runs|] == runs;
    }
  }

  /** The first actions of a request have led from one state to the other, with these results and runs. */
  ghost predicate Began(cfg: Config, w: State, req: Body, statuses: seq<Status>, runs: seq<Acted>, w': State,
                        results: seq<Result>)
    requires req.Request? && |statuses| <= |req.actions|
  {
    var began :=
      && RanActions(cfg, w, req, statuses) == (w', results) && ActionsRan(cfg.registered, req.actions, statuses, runs)
      && w' == w.(queue := w'.queue, runs := w'.runs, dropped := w'.dropped);
    began
  }

  lemma OneMoreAction(cfg: Config, w: State, req: Body, statuses: seq<Status>, runs: seq<Acted>, w1: State,
                      results: seq<Result>, status: Status, more: seq<Acted>)
    requires req.Request? && |statuses| < |req.actions| && Began(cfg, w, req, statuses, runs, w1, results)
    requires if req.actions[|statuses|].name !in cfg.registered then more == []
             else |more| == 1 && EndedAs(more[0], req.actions[|statuses|], status)
    ensures var (w2, added) := RanAction(cfg, w1, req.session, req.actions[|statuses|], status);
            Began(cfg, w, req, statuses + [status], runs + more, w2, results + added)
  {
    assert (statuses + [status])[..|statuses|] == statuses;
    ActionFrame(cfg, w1, req.session, req.actions[|statuses|], status);
    OneMoreRan(cfg.registered, req.actions, statuses, runs, status, more);
  }

  lemma OneThrew(log: seq<Acted>, a: Action)
    ensures !NoneThrew(log + [Acted(a, THREW)])
  {
    assert (log + [Acted(a, THREW)])[|log|] == Acted(a, THREW);
  }

  lemma CutsOffIfThrown(cfg: Config, w: State, log: seq<Acted>, statuses: seq<Status>)
    requires Enabled(cfg, w, Process(statuses))
    ensures Processed(cfg, w, statuses).taken == w.taken && Processed(cfg, w, statuses).phase.Returning?
    ensures NoneThrew(log + Breaking(RequestOf(w.phase.request).actions, statuses)) ==>
              Processed(cfg, w, statuses).cutOff == w.cutOff
  {
    var actions := RequestOf(w.phase.request).actions;
    ActionsFrame(cfg, w, RequestOf(w.phase.request), statuses);
    if |statuses| < |actions| {
      OneThrew(log, actions[|statuses|]);
    } else {
      NextCutsOff(cfg, w, Process(statuses));
    }
  }

  /** What a poll of the socket finds. */
  datatype Poll = Silence | Broken | Arrives(msg: Msg)

  /** What a request that arrives asks for. */
  function PollTasks(poll: Poll): multiset<Task> {
    if poll.Arrives? && |poll.msg| >= 3 && FrameText(poll.msg[2]) == REQUEST then RequestTasks(poll.msg[3..])
    else multiset{}
  }

  function PolledTasks(polls: seq<Poll>): multiset<Task> {
    if polls == [] then multiset{} else PollTasks(polls[0]) + PolledTasks(polls[1..])
  }

  /** The handler asserts the frames of what arrives. */
  predicate AllFramed(polls: seq<Poll>) {
    forall i :: 0 <= i < |polls| ==> PollFramed(polls[i])
  }

  /** The worker gives its connection up: the liveness reaches 0, or the broker says so. */
  predicate Reconnects(poll: Poll, liveness: nat)
    requires PollFramed(poll)
  {
    match poll
    case Silence => liveness == 1
    case Arrives(msg) => FrameText(msg[2]) == DISCONNECT
    case Broken => false
  }

  predicate PollFramed(poll: Poll) {
    poll.Arrives? ==> Framed(poll.msg)
  }

  /** Milliseconds of the clock in whole seconds. */
  function Seconds(t: int): int {
    t / 1000
  }

  /** Four hexadecimal digits. */
  function Hex4(v: nat): string
    requires v < 0x10000
  {
    [HEX_CHAR[v / 4096], HEX_CHAR[v / 256 % 16], HEX_CHAR[v / 16 % 16], HEX_CHAR[v % 16]]
  }

  /** set_id: a random identity, and one to which the broker can send. */
  method SetId() returns (identity: string)
    ensures |identity| == 9 && Routable(identity)
  {
    var x: nat :| x < 0x10000;
    var y: nat :| y < 0x10000;
    Hex4HasNoNul(x);
    Hex4HasNoNul(y);
    identity := Hex4(x) + "-" + Hex4(y);
  }

  lemma Hex4HasNoNul(v: nat)
    requires v < 0x10000
    ensures NUL !in Hex4(v)
  {
    assert forall i :: 0 <= i < 16 ==> HEX_CHAR[i] != NUL;
  }

  // heartbeats are counted down in 64 bits
  const SIZE_MAX: nat := 0xFFFF_FFFF_FFFF_FFFF

  class MessageWorker {
    const config: Config
    const heartbeatLiveness: nat
    const heartbeatInterval: int
    const actionPostponeDur: nat
    const postponedActions: PostponedQueue

    var identity: string
    var liveness: nat
    var heartbeatAt: int
    var expectReply: bool
    var replyTo: string
    var replied: nat
    var reply: Option<Msg>
    // everything sent on the socket to the broker, and the clock in milliseconds
    var socket: seq<Msg>
    var clock: int
    // an exception has left the loops, and the worker with them
    var died: bool

    // the state of the specification that the execution has reached, and the actions that have run
    ghost var now: State
    ghost var acted: seq<Acted>

    /** A run of the specification leads here, and the fields are those of its last state. */
    ghost predicate Valid()
      reads this, postponedActions
    {
      && postponedActions.Valid() && Reached(config, now)
      && FieldsOf(now)
    }

    ghost predicate FieldsOf(w: State)
      reads this, postponedActions
    {
      w == w.(queue := postponedActions.paq, replyTo := replyTo, reply := reply, expectReply := expectReply,
              sent := socket, replied := replied)
    }

    constructor (config: Config, heartbeatLiveness: nat, heartbeatInterval: int, actionPostponeDur: nat)
      ensures !died && Valid() && now == INITIAL && acted == [] && fresh(postponedActions)
      ensures this.config == config
    {
      this.config := config;
      this.heartbeatLiveness, this.heartbeatInterval, this.actionPostponeDur :=
        heartbeatLiveness, heartbeatInterval, actionPostponeDur;
      postponedActions := new PostponedQueue();
      liveness, heartbeatAt, expectReply, replyTo, replied, reply := heartbeatLiveness, 0, false, "", 0, None;
      identity, socket, clock, died := "", [], 0, false;
      now, acted := INITIAL, [];
      InitialIsReached(config);
    }

    /** Continues the run by a step. */
    ghost method Advance(step: Step)
      requires Reached(config, now) && Enabled(config, now, step)
      modifies this`now
      ensures Reached(config, now) && now == Next(config, old(now), step)
    {
      NextIsReached(config, now, step);
      now := Next(config, now, step);
    }

    /** A reading of the clock, which never goes back. */
    method Now() returns (t: int)
      modifies this`clock
      ensures old(clock) <= t == clock
    {
      t :| clock <= t;
      clock := t;
    }

    /** Runs an action, a foreign call. */
    method Act(a: Action) returns (result: ActStatus)
      modifies this`acted
      ensures acted == old(acted) + [Acted(a, result)]
    {
      result := *;
      acted := acted + [Acted(a, result)];
    }

    /** connect_to_broker */
    method ConnectToBroker()
      requires Valid() && !now.phase.Handling?
      modifies this`identity, this`socket, this`liveness, this`heartbeatAt, this`clock, this`now
      ensures Valid() && socket == old(socket) + [Signal(READY)] && liveness == heartbeatLiveness
      ensures Routable(identity)
      ensures old(clock) <= clock && heartbeatAt == clock + heartbeatInterval
      ensures now == Next(config, old(now), Connect)
    {
      identity := SetId();
      socket := socket + [Signal(READY)];
      liveness := heartbeatLiveness;
      var t := Now();
      heartbeatAt := t + heartbeatInterval;
      Advance(Connect);
    }

    /** Runs every action that is due, each once, until none is due or one throws. */
    method HandlePostponedActions() returns (time: int, ghost statuses: seq<Status>, ghost runs: seq<Acted>)
      requires Valid() && now.phase.Waiting? && !died
      modifies this`clock, this`now, this`acted, this`socket, this`replied, this`died, postponedActions
      ensures Valid() && now.phase.Waiting?
      ensures Seconds(old(clock)) <= time <= Seconds(clock)
      ensures !died ==> forall i :: 0 <= i < |postponedActions.paq| ==> time < postponedActions.paq[i].expiration
      ensures RunsTo(config, old(now), time, statuses, now)
      ensures now.taken == old(now).taken && now.cutOff == old(now).cutOff
      ensures DueRan(Due(old(postponedActions.paq), time), statuses, runs)
      ensures died <==> |statuses| < |Due(old(postponedActions.paq), time)|
      ensures acted == old(acted) + runs + DyingRun(Due(old(postponedActions.paq), time), statuses, died)
      ensures old(acted) <= acted && (died ==> !NoneThrew(acted))
    {
      var t := Now();
      time := Seconds(t);
      statuses, runs := [], [];
      ghost var w, log, due := now, acted, Due(postponedActions.paq, time);
      while !died && postponedActions.paq != [] && postponedActions.paq[0].expiration <= time
        invariant Valid() && t <= clock && RanSince(config, w, due, time, statuses, runs, now)
        invariant died ==> |statuses| < |due|
        invariant acted == log + runs + DyingRun(due, statuses, died)
        decreases |Due(postponedActions.paq, time)|, !died
      {
        statuses, runs := RunNextDue(time, w, log, due, statuses, runs);
      }
      if died {
        OneThrew(log + runs, due[|statuses|].action);
      } else {
        NoneDue(postponedActions.paq, time);
      }
    }

    /** Runs the next of the actions that were due when the loop began. */
    method RunNextDue(time: int, ghost w: State, ghost log: seq<Acted>, ghost due: seq<Entry>,
                      ghost statuses: seq<Status>, ghost runs: seq<Acted>)
      returns (ghost statuses': seq<Status>, ghost runs': seq<Acted>)
      requires Valid() && now.phase.Waiting? && !died && time <= Seconds(clock)
      requires postponedActions.paq != [] && postponedActions.paq[0].expiration <= time
      requires RanSince(config, w, due, time, statuses, runs, now) && acted == log + runs
      modifies this`clock, this`now, this`acted, this`socket, this`replied, this`died, postponedActions
      ensures Valid() && old(clock) <= clock && RanSince(config, w, due, time, statuses', runs', now)
      ensures if died then now == old(now) && statuses' == statuses && |statuses| < |due|
              else |Due(now.queue, time)| < |Due(old(now).queue, time)|
      ensures acted == log + runs' + DyingRun(due, statuses', died)
    {
      TopIsNext(now.queue, time, due, |statuses|);
      ghost var w1 := now;
      ghost var status, run := RunDue(time);
      statuses', runs' := statuses, runs;
      if !died {
        OneMoreDue(config, w, due, time, statuses, runs, w1, status, run);
        statuses', runs' := statuses + [status], runs + [run];
      }
    }

    /** The body of the loop of handle_postponed_actions.  What the action throws is caught nowhere: the
        action stays queued, unanswered, and the worker dies. */
    method RunDue(time: int) returns (ghost status: Status, ghost run: Acted)
      requires Valid() && now.phase.Waiting? && !died && time <= Seconds(clock)
      requires postponedActions.paq != [] && postponedActions.paq[0].expiration <= time
      modifies this`clock, this`now, this`acted, this`socket, this`replied, this`died, postponedActions
      ensures Valid() && old(clock) <= clock
      ensures acted == old(acted) + [run]
      ensures if died then run == Acted(old(postponedActions.paq)[0].action, THREW)
              else EndedAs(run, old(postponedActions.paq)[0].action, status)
      ensures if died then now == old(now)
              else Enabled(config, old(now), RunTop(time, status)) && now == RanTop(old(now), status)
    {
      // a queued name stays registered, so that the search for its action finds it
      TopFits(config, now);
      var top := postponedActions.paq[0];
      var result := Act(top.action);
      status, run := if result == FAILED then Failed else Succeeded, Acted(top.action, result);
      if result == THREW {
        died := true;
      } else if result == POSTPONED && top.remainingRuns > 0 {
        var t := Now();
        PutOffTop(top, time, Seconds(t));
        status := Postponed(Seconds(t));
      } else {
        status := if result == POSTPONED then Postponed(time) else status;
        AnswerTop(top, time, status);
      }
    }

    method PutOffTop(top: Entry, time: int, at: int)
      requires Valid() && postponedActions.paq != [] && top == postponedActions.paq[0] && top.remainingRuns > 0
      requires Enabled(config, now, RunTop(time, Postponed(at)))
      modifies this`now, postponedActions
      ensures Valid() && now == RanTop(old(now), Postponed(at))
    {
      TopIsFound(postponedActions.paq);
      var _ := postponedActions.DecrementRunsAndUpdateExpiration(top.id, at);
      Advance(RunTop(time, Postponed(at)));
    }

    method AnswerTop(top: Entry, time: int, ghost status: Status)
      requires Valid() && postponedActions.paq != [] && top == postponedActions.paq[0]
      requires Enabled(config, now, RunTop(time, status)) && (status.Postponed? ==> top.remainingRuns == 0)
      modifies this`now, this`socket, this`replied, postponedActions
      ensures Valid() && now == RanTop(old(now), status)
    {
      socket := socket + [AnswerMessage(top)];
      RemoveTop(top);
      replied := replied + 1;
      Advance(RunTop(time, status));
    }

    method RemoveTop(top: Entry)
      requires postponedActions.Valid() && postponedActions.paq != [] && top == postponedActions.paq[0]
      modifies postponedActions
      ensures postponedActions.Valid() && postponedActions.paq == Without(old(postponedActions.paq), 0)
    {
      TopIsFound(postponedActions.paq);
      var _ := postponedActions.RemoveById(top.id);
    }

    /** recv: sends the reply, if any, and waits for the next request. */
    method Recv(polls: seq<Poll>) returns (request: Option<Msg>, rest: seq<Poll>)
      requires Valid() && now.phase.Returning? && !died && AllFramed(polls)
      modifies this, postponedActions
      ensures Valid() && AllFramed(rest) && now.taken + PolledTasks(rest) == old(now).taken + PolledTasks(polls)
      ensures if request.Some? then now.phase == Handling(request.value) && |rest| < |polls| && !died
              else now.phase.Waiting? && |rest| <= |polls| && (died || rest == [])
      ensures old(acted) <= acted && (died ==> !NoneThrew(acted)) && now.cutOff == old(now).cutOff
    {
      ReplyIsThere(config, now);
      assert reply.Some? || !expectReply;
      SendReplyIfAny();
      request, rest := AwaitRequest(polls);
    }

    /** The loop of recv. */
    method AwaitRequest(polls: seq<Poll>) returns (request: Option<Msg>, rest: seq<Poll>)
      requires Valid() && now.phase.Waiting? && !died && AllFramed(polls)
      modifies this, postponedActions
      ensures Valid() && AllFramed(rest) && now.taken + PolledTasks(rest) == old(now).taken + PolledTasks(polls)
      ensures if request.Some? then now.phase == Handling(request.value) && |rest| < |polls| && !died
              else now.phase.Waiting? && |rest| <= |polls| && (died || rest == [])
      ensures old(acted) <= acted && (died ==> !NoneThrew(acted)) && now.cutOff == old(now).cutOff
    {
      request, rest := None, polls;
      while rest != [] && request.None? && !died
        invariant Valid() && AllFramed(rest) && now.taken + PolledTasks(rest) == old(now).taken + PolledTasks(polls)
        invariant if request.Some? then now.phase == Handling(request.value) && |rest| < |polls| else now.phase.Waiting?
        invariant |rest| <= |polls| && (request.Some? ==> !died)
        invariant old(acted) <= acted && (died ==> !NoneThrew(acted)) && now.cutOff == old(now).cutOff
        decreases |rest|, !died
      {
        ghost var taken := now.taken;
        request := PollOnce(rest[0]);
        if !died {
          WorkerSpec.Across(taken, PollTasks(rest[0]), PolledTasks(rest[1..]));
          rest := rest[1..];
        }
      }
    }

    method PollOnce(poll: Poll) returns (request: Option<Msg>)
      requires Valid() && now.phase.Waiting? && !died && PollFramed(poll)
      modifies this, postponedActions
      ensures Valid() && if request.Some? then now.phase == Handling(request.value) else now.phase.Waiting?
      ensures if died then now.taken == old(now).taken && request.None?
              else now.taken == old(now).taken + PollTasks(poll)
      ensures old(acted) <= acted && (died ==> !NoneThrew(acted)) && now.cutOff == old(now).cutOff
    {
      request := None;
      var _, _, _ := HandlePostponedActions();
      if !died {
        request := PollAndHeartbeat(poll);
      }
    }

    /** The rest of the body of the loop of recv, behind the postponed actions. */
    method PollAndHeartbeat(poll: Poll) returns (request: Option<Msg>)
      requires Valid() && now.phase.Waiting? && PollFramed(poll)
      modifies this`identity, this`socket, this`liveness, this`heartbeatAt, this`clock, this`replyTo, this`now
      ensures Valid() && if request.Some? then now.phase == Handling(request.value) else now.phase.Waiting?
      ensures now.taken == old(now).taken + PollTasks(poll) && now.cutOff == old(now).cutOff
    {
      request := HandlePoll(poll);
      if request.None? {
        HeartbeatIfTime();
      }
    }

    method SendReplyIfAny()
      requires Valid() && now.phase.Returning?
      modifies this`socket, this`replyTo, this`replied, this`reply, this`expectReply, this`now
      ensures Valid() && now.phase.Waiting? && expectReply
      ensures now == Next(config, old(now), SendReply)
      ensures if old(reply).Some? && old(replyTo) != ""
              then socket == old(socket) + [ReplyMessage(old(replyTo), old(reply).value)] &&
                   reply == None && replyTo == ""
              else socket == old(socket) && reply == old(reply) && replyTo == old(replyTo)
    {
      if reply.Some? && replyTo != "" {
        socket := socket + [ReplyMessage(replyTo, reply.value)];
        replyTo := "";
        replied := replied + 1;
        reply := None;
      }
      expectReply := true;
      Advance(SendReply);
    }

    method HeartbeatIfTime()
      requires Valid() && now.phase.Waiting?
      modifies this`socket, this`heartbeatAt, this`clock, this`now
      ensures Valid() && now.phase.Waiting? && old(clock) <= clock
      ensures now.taken == old(now).taken && now.cutOff == old(now).cutOff
      ensures socket == old(socket) + if old(heartbeatAt) <= clock then [Signal(HEARTBEAT)] else []
      ensures heartbeatAt == old(heartbeatAt) + if old(heartbeatAt) <= clock then heartbeatInterval else 0
      ensures now == if old(heartbeatAt) <= clock then Next(config, old(now), Heartbeat) else old(now)
    {
      var t := Now();
      if t >= heartbeatAt {
        socket := socket + [Signal(HEARTBEAT)];
        heartbeatAt := heartbeatAt + heartbeatInterval;
        Advance(Heartbeat);
      }
    }

    /** What recv does after a poll; only a REQUEST ends the wait. */
    method HandlePoll(poll: Poll) returns (request: Option<Msg>)
      requires Valid() && now.phase.Waiting? && PollFramed(poll)
      modifies this`identity, this`socket, this`liveness, this`heartbeatAt, this`clock, this`replyTo, this`now
      ensures Valid() && if request.Some? then now.phase == Handling(request.value) else now.phase.Waiting?
      ensures poll.Arrives? ==> liveness == heartbeatLiveness && (request.Some? <==> FrameText(poll.msg[2]) == REQUEST)
      ensures now.taken == old(now).taken + PollTasks(poll) && now.cutOff == old(now).cutOff
      ensures poll.Broken? ==> now == old(now) && liveness == old(liveness)
      ensures if Reconnects(poll, old(liveness))
              then now == Next(config, old(now), Connect) && heartbeatAt == clock + heartbeatInterval
              else heartbeatAt == old(heartbeatAt) && identity == old(identity)
      ensures poll.Silence? && old(liveness) != 1 ==>
                now == old(now) && liveness == if old(liveness) == 0 then SIZE_MAX else old(liveness) - 1
      ensures poll.Silence? && old(liveness) == 1 ==> liveness == heartbeatLiveness
    {
      request := None;
      match poll {
        case Arrives(msg) =>
          liveness := heartbeatLiveness;
          request := HandleMessage(msg);
        case Silence =>
          liveness := if liveness == 0 then SIZE_MAX else liveness - 1;
          if liveness == 0 {
            ConnectToBroker();
          }
        case Broken =>
      }
    }

    method HandleMessage(msg: Msg) returns (request: Option<Msg>)
      requires Valid() && now.phase.Waiting? && Framed(msg) && liveness == heartbeatLiveness
      modifies this`identity, this`socket, this`liveness, this`heartbeatAt, this`clock, this`replyTo, this`now
      ensures Valid() && liveness == heartbeatLiveness
      ensures if FrameText(msg[2]) == DISCONNECT then heartbeatAt == clock + heartbeatInterval
              else heartbeatAt == old(heartbeatAt) && identity == old(identity)
      ensures var command := FrameText(msg[2]);
              if command == REQUEST then now == Took(old(now), msg) && request == Some(Unwrap(msg[3..]).1)
              else request == None && now == if command == DISCONNECT then Next(config, old(now), Connect) else old(now)
    {
      request := None;
      var command := FrameText(msg[2]);
      if command == REQUEST {
        var (client, body) := Unwrap(msg[3..]);
        replyTo, request := client, Some(body);
        Advance(Take(msg));
      } else if command == DISCONNECT {
        ConnectToBroker();
      }
    }

    /** The body of the loop of worker_loop: runs the actions of a request and forms the reply. */
    method ProcessRequest(request: Msg) returns (ghost statuses: seq<Status>, ghost runs: seq<Acted>)
      requires Valid() && now.phase == Handling(request)
      modifies this`clock, this`reply, this`expectReply, this`replyTo, this`now, this`acted, postponedActions
      ensures Valid() && now.phase.Returning?
      ensures Enabled(config, old(now), Process(statuses)) && now == Processed(config, old(now), statuses)
      ensures now.taken == old(now).taken
      ensures ActionsRan(config.registered, RequestOf(request).actions, statuses, runs)
      ensures acted == old(acted) + runs + Breaking(RequestOf(request).actions, statuses)
      ensures old(acted) <= acted && (NoneThrew(acted) ==> now.cutOff == old(now).cutOff)
    {
      var req := RequestOf(request);
      var results: seq<Result>, brokeOff: bool;
      ghost var w: State;
      results, brokeOff, statuses, runs, w := RunActions(req);
      assert results + [] == results;
      if brokeOff || !req.wellFormed {
        results := results + [Malformed("unknown")];
      }
      assert Processed(config, now, statuses) == Concluded(w, req, req.actions[|statuses|..], results);
      CutsOffIfThrown(config, now, old(acted) + runs, statuses);
      FormReply(req, req.actions[|statuses|..], results, w);
      Advance(Process(statuses));
    }

    /** The reply, when there are results; otherwise none is expected. */
    method FormReply(req: Body, ghost rest: seq<Action>, results: seq<Result>, ghost w: State)
      requires req.Request? && FieldsOf(w)
      modifies this`reply, this`expectReply, this`replyTo
      ensures FieldsOf(Concluded(w, req, rest, results))
    {
      if results != [] {
        reply := Some(ResultsMessage(req.session, results));
      } else {
        expectReply := false;
        replyTo := "";
      }
    }

    /** Runs the actions of a request in order, up to one that breaks it off. */
    method RunActions(req: Body)
      returns (results: seq<Result>, brokeOff: bool, ghost statuses: seq<Status>, ghost runs: seq<Acted>,
               ghost w: State)
      requires Valid() && req.Request?
      modifies postponedActions, this`clock, this`acted
      ensures postponedActions.Valid() && |statuses| <= |req.actions|
      ensures Began(config, now, req, statuses, runs, w, results) && FieldsOf(w)
      ensures brokeOff <==> |statuses| < |req.actions|
      ensures brokeOff ==> req.actions[|statuses|].name in config.registered
      ensures acted == old(acted) + runs + Breaking(req.actions, statuses)
    {
      results, brokeOff, statuses, runs, w := [], false, [], [], now;
      for i := 0 to |req.actions|
        modifies postponedActions, this`clock, this`acted
        invariant |statuses| == i && postponedActions.Valid() && !brokeOff
        invariant Began(config, now, req, statuses, runs, w, results)
        invariant w.queue == postponedActions.paq && w.replyTo == replyTo && acted == old(acted) + runs
      {
        ghost var w', status, ran;
        var more: seq<Result>;
        brokeOff, more, w', status, ran := RunAction(req.session, req.actions[i], w);
        if brokeOff {
          return;
        }
        OneMoreAction(config, now, req, statuses, runs, w, results, status, ran);
        results, statuses, runs, w := results + more, statuses + [status], runs + ran, w';
      }
    }

    /** One action of a request, and what it adds to the results; an action that throws, or whose
        message cannot be read, breaks the request off. */
    method RunAction(session: string, a: Action, ghost w: State)
      returns (threw: bool, more: seq<Result>, ghost w': State, ghost status: Status, ghost runs: seq<Acted>)
      requires postponedActions.Valid() && w.queue == postponedActions.paq && w.replyTo == replyTo
      modifies postponedActions, this`clock, this`acted
      ensures postponedActions.Valid() && w'.queue == postponedActions.paq && w'.replyTo == replyTo
      ensures acted == old(acted) + runs
      ensures if a.name !in config.registered then runs == [] && !threw
              else |runs| == 1 && if threw then runs[0] == Acted(a, THREW) else EndedAs(runs[0], a, status)
      ensures if threw then a.name in config.registered && w' == w
              else (w', more) == RanAction(config, w, session, a, status)
      ensures status.Postponed? ==> status.at == Seconds(clock + actionPostponeDur)
    {
      threw, more, w', status, runs := false, [], w, Succeeded, [];
      if a.name !in config.registered {
        more := [Rejected(a.id)];
      } else {
        var result := Act(a);
        runs := [Acted(a, result)];
        match result {
          case THREW => threw := true;
          case POSTPONED =>
            var t := Now();
            var at := Seconds(t + actionPostponeDur);
            var _ := postponedActions.Add(Entry(a, replyTo, a.id, config.retries % 256, at, session));
            status := Postponed(at);
          case _ =>
            more := [Done(a.id)];
            status := if result == FAILED then Failed else Succeeded;
        }
      }
      if !threw {
        w' := RanAction(config, w, session, a, status).0;
      }
    }

    /** worker_loop, until the worker is interrupted after the given polls, or dies before the rest of
        them.  Whatever arrives and however the actions end, the execution is a run of the specification,
        and every task of every request that arrived is answered, queued, dropped or cut off, or its
        answer has no client.  When no action throws it lives on and cuts nothing off; and with distinct
        ids and named clients every task is then answered or queued. */
    method WorkerLoop(polls: seq<Poll>) returns (rest: seq<Poll>)
      requires Valid() && now == INITIAL && !died && AllFramed(polls)
      modifies this, postponedActions
      ensures Valid() && now.phase.Waiting? && WorkerSpec.Invariant(config, now) && (died || rest == [])
      ensures NoneThrew(acted) ==> !died && now.cutOff == multiset{}
      ensures PolledTasks(polls) ==
              Sum(socket, ReplyTasks) + Sum(postponedActions.paq, EntryTask) + Pending(now) +
              now.dropped + now.cutOff + now.unsent + PolledTasks(rest)
      ensures NoneThrew(acted) && !HasTwins(PolledTasks(polls)) && Named(PolledTasks(polls)) ==>
                PolledTasks(polls) == Sum(socket, ReplyTasks) + Sum(postponedActions.paq, EntryTask)
    {
      ConnectToBroker();
      var request;
      request, rest := Recv(polls);
      while request.Some?
        invariant Valid() && AllFramed(rest) && now.taken + PolledTasks(rest) == PolledTasks(polls)
        invariant if request.Some? then now.phase == Handling(request.value) && !died
                  else now.phase.Waiting? && (died || rest == [])
        invariant NoneThrew(acted) ==> !died && now.cutOff == multiset{}
        decreases |rest|, if request.Some? then 1 else 0
      {
        request, rest := ProcessAndRecv(request.value, rest);
      }
      Accounted(config, now);
    }

    method ProcessAndRecv(request: Msg, polls: seq<Poll>) returns (next: Option<Msg>, rest: seq<Poll>)
      requires Valid() && now.phase == Handling(request) && !died && AllFramed(polls)
      modifies this, postponedActions
      ensures Valid() && AllFramed(rest) && now.taken + PolledTasks(rest) == old(now).taken + PolledTasks(polls)
      ensures if next.Some? then now.phase == Handling(next.value) && |rest| < |polls| && !died
              else now.phase.Waiting? && |rest| <= |polls| && (died || rest == [])
      ensures old(acted) <= acted
      ensures NoneThrew(acted) ==> !died && now.cutOff == old(now).cutOff
    {
      var _, _ := ProcessRequest(request);
      next, rest := Recv(polls);
    }
  }

  lemma Accounted(cfg: Config, w: State)
    requires Reached(cfg, w) && w.phase.Waiting?
    ensures WorkerSpec.Invariant(cfg, w)
    ensures w.taken == Sum(w.sent, ReplyTasks) + Sum(w.queue, EntryTask) + Pending(w) + w.dropped + w.cutOff + w.unsent
    ensures w.cutOff == multiset{} && !HasTwins(w.taken) && Named(w.taken) ==>
              w.taken == Sum(w.sent, ReplyTasks) + Sum(w.queue, EntryTask)
  {
    ReachedKeeps(cfg, w);
    NoMore(Settled(w));
    if w.cutOff == multiset{} && !HasTwins(w.taken) && Named(w.taken) {
      NoLosses(cfg, w);
      NoMore(Sum(w.sent, ReplyTasks) + Sum(w.queue, EntryTask));
    }
  }
}
