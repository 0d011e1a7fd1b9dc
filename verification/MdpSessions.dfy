/** In every run of the system, the session of every message to a client is one in which this client asked. */
module MdpSessions {
  import opened Wrappers
  import opened MdpMessage
  import opened PostponedActions
  import opened Tasks
  import opened ZmqMessage
  import opened MdpSystem
  import BrokerSpec
  import WorkerSpec

  /** A client, as the broker knows it, and a session. */
  type Pair = (string, string)

  function AskedPairs(asked: seq<Ask>): set<Pair> {
    set i | 0 <= i < |asked| :: (AddressText(asked[i].client), RequestOf(asked[i].msg).session)
  }

  predicate HoldsResults(msg: Msg) {
    msg != [] && msg[|msg| - 1].Json? && msg[|msg| - 1].body.Results?
  }

  /** A message with results for a client is in a session in which this client asked. */
  predicate ResultsFit(pairs: set<Pair>, client: string, msg: Msg) {
    HoldsResults(msg) ==> (client, msg[|msg| - 1].body.session) in pairs
  }

  predicate RequestFits(pairs: set<Pair>, m: Msg) {
    (Unwrap(m).0, RequestOf(Unwrap(m).1).session) in pairs
  }

  predicate DownFits(pairs: set<Pair>, m: Msg) {
    BrokerSpec.IsRequest(m) ==> RequestFits(pairs, m[4..])
  }

  /** What a worker sent, without the name in front. */
  predicate SentFits(pairs: set<Pair>, m: Msg) {
    |m| >= 3 && FrameText(m[2]) == REPLY ==> ResultsFit(pairs, Unwrap(m[3..]).0, Unwrap(m[3..]).1)
  }

  predicate ClientFits(pairs: set<Pair>, m: Msg) {
    m != [] ==> ResultsFit(pairs, FrameText(m[0]), m)
  }

  predicate QueueFits(pairs: set<Pair>, queue: seq<Entry>) {
    forall i :: 0 <= i < |queue| ==> (queue[i].replyTo, queue[i].session) in pairs
  }

  ghost predicate WorkerFits(pairs: set<Pair>, w: WorkerSpec.State) {
    && (w.phase.Handling? ==> (w.replyTo, RequestOf(w.phase.request).session) in pairs)
    && (w.reply.Some? ==> ResultsFit(pairs, w.replyFor, w.reply.value))
    && QueueFits(pairs, w.queue)
    && (forall i :: 0 <= i < |w.sent| ==> SentFits(pairs, w.sent[i]))
  }

  ghost predicate AllFit(pairs: set<Pair>, n: Net) {
    && (forall i :: 0 <= i < |n.workers| ==> WorkerFits(pairs, n.workers[i]))
    && (forall i :: 0 <= i < |n.up| ==> n.up[i] != [] && SentFits(pairs, n.up[i][1..]))
    && (forall i :: 0 <= i < |n.down| ==> DownFits(pairs, n.down[i]))
    && (forall i :: 0 <= i < |n.broker.accepted| ==> RequestFits(pairs, n.broker.accepted[i]))
    && (forall i :: 0 <= i < |n.broker.toClients| ==> ClientFits(pairs, n.broker.toClients[i]))
  }

  // ----- More sessions asked in fit as well

  lemma MorePairs(pairs: set<Pair>, pairs': set<Pair>, n: Net)
    requires AllFit(pairs, n) && pairs <= pairs'
    ensures AllFit(pairs', n)
  {
  }

  lemma AskedGrows(asked: seq<Ask>, a: Ask)
    ensures AskedPairs(asked) <= AskedPairs(asked + [a])
    ensures (AddressText(a.client), RequestOf(a.msg).session) in AskedPairs(asked + [a])
  {
    var pairs' := AskedPairs(asked + [a]);
    forall i | 0 <= i < |asked|
      ensures (AddressText(asked[i].client), RequestOf(asked[i].msg).session) in pairs'
    {
      assert (asked + [a])[i] == asked[i];
    }
    assert (asked + [a])[|asked|] == a;
  }

  // ----- Steps of a worker

  lemma ReplyFits(pairs: set<Pair>, client: string, body: Msg)
    requires NUL !in client && ResultsFit(pairs, client, body)
    ensures SentFits(pairs, WorkerSpec.ReplyMessage(client, body))
  {
    UnwrapWrapIff(body, client);
    assert WorkerSpec.ReplyMessage(client, body)[3..] == Wrap(body, client, "");
  }

  lemma SignalFits(pairs: set<Pair>, w: WorkerSpec.State, command: string)
    requires WorkerFits(pairs, w) && (command == READY || command == HEARTBEAT)
    ensures WorkerFits(pairs, w.(sent := w.sent + [WorkerSpec.Signal(command)]))
  {
    assert FrameText(Text(command)) == command;
  }

  lemma ReplySentFits(pairs: set<Pair>, w: WorkerSpec.State)
    requires WorkerFits(pairs, w) && WorkerSpec.ReplyFits(w) && w.phase.Returning?
    ensures WorkerFits(pairs, WorkerSpec.Replied(w).(phase := WorkerSpec.Waiting, expectReply := true))
  {
    if w.reply.Some? {
      ReplyFits(pairs, w.replyTo, w.reply.value);
    }
  }

  lemma InsertFits(pairs: set<Pair>, queue: seq<Entry>, e: Entry)
    requires QueueFits(pairs, queue) && (e.replyTo, e.session) in pairs
    ensures QueueFits(pairs, Insert(queue, e))
  {
    forall i | 0 <= i < |Insert(queue, e)|
      ensures (Insert(queue, e)[i].replyTo, Insert(queue, e)[i].session) in pairs
    {
      InsertAt(queue, e, i);
    }
  }

  lemma TopFits(pairs: set<Pair>, w: WorkerSpec.State, status: WorkerSpec.Status)
    requires WorkerFits(pairs, w) && w.queue != [] && NUL !in w.queue[0].replyTo
    ensures WorkerFits(pairs, WorkerSpec.RanTop(w, status))
  {
    var top := w.queue[0];
    assert PostponedActions.Without(w.queue, 0) == w.queue[1..];
    if status.Postponed? && top.remainingRuns > 0 {
      InsertFits(pairs, w.queue[1..], Later(top, status.at));
    } else {
      ReplyFits(pairs, top.replyTo, WorkerSpec.ResultsMessage(top.session, [Done(top.id)]));
    }
  }

  lemma {:induction false} ActionsFit(pairs: set<Pair>, cfg: WorkerSpec.Config, w: WorkerSpec.State, req: Body,
                                      statuses: seq<WorkerSpec.Status>)
    requires req.Request? && |statuses| <= |req.actions|
    requires QueueFits(pairs, w.queue) && (w.replyTo, req.session) in pairs
    ensures QueueFits(pairs, WorkerSpec.RanActions(cfg, w, req, statuses).0.queue)
    decreases |statuses|
  {
    if statuses != [] {
      var n := |statuses| - 1;
      var w1 := WorkerSpec.RanActions(cfg, w, req, statuses[..n]).0;
      var a := req.actions[n];
      ActionsFit(pairs, cfg, w, req, statuses[..n]);
      WorkerSpec.ActionsFrame(cfg, w, req, statuses[..n]);
      if WorkerSpec.FateOf(cfg, w1.queue, a, statuses[n]).Queued? {
        InsertFits(pairs, w1.queue, WorkerSpec.NewEntry(cfg, w1, req.session, a, statuses[n].at));
      }
    }
  }

  lemma ProcessFits(pairs: set<Pair>, cfg: WorkerSpec.Config, w: WorkerSpec.State, statuses: seq<WorkerSpec.Status>)
    requires WorkerFits(pairs, w) && WorkerSpec.Enabled(cfg, w, WorkerSpec.Process(statuses))
    ensures WorkerFits(pairs, WorkerSpec.Processed(cfg, w, statuses))
  {
    var req := RequestOf(w.phase.request);
    ActionsFit(pairs, cfg, w, req, statuses);
    WorkerSpec.ActionsFrame(cfg, w, req, statuses);
  }

  lemma TakenFits(pairs: set<Pair>, w: WorkerSpec.State, msg: Msg)
    requires WorkerFits(pairs, w) && WorkerSpec.Framed(msg)
    requires FrameText(msg[2]) == REQUEST ==> RequestFits(pairs, msg[3..])
    ensures WorkerFits(pairs, WorkerSpec.Took(w, msg))
  {
  }

  /** What the worker's own invariant says of its addresses. */
  ghost predicate AddressesFit(w: WorkerSpec.State) {
    WorkerSpec.ReplyFits(w) && (w.queue != [] ==> NUL !in w.queue[0].replyTo)
  }

  lemma InvariantFits(cfg: WorkerSpec.Config, w: WorkerSpec.State)
    requires WorkerSpec.Invariant(cfg, w)
    ensures AddressesFit(w)
  {
    if w.queue != [] {
      assert WorkerSpec.EntryFits(cfg, w.runs, w.queue[0]);
    }
  }

  lemma NextFits(pairs: set<Pair>, cfg: WorkerSpec.Config, w: WorkerSpec.State, step: WorkerSpec.Step)
    requires WorkerFits(pairs, w) && AddressesFit(w) && WorkerSpec.Enabled(cfg, w, step)
    requires step.Take? && FrameText(step.msg[2]) == REQUEST ==> RequestFits(pairs, step.msg[3..])
    ensures WorkerFits(pairs, WorkerSpec.Next(cfg, w, step))
  {
    match step
    case SendReply => ReplySentFits(pairs, w);
    case RunTop(_, status) => TopFits(pairs, w, status);
    case Take(msg) => TakenFits(pairs, w, msg);
    case Process(statuses) => ProcessFits(pairs, cfg, w, statuses);
    case Heartbeat => SignalFits(pairs, w, HEARTBEAT);
    case Connect => SignalFits(pairs, w, READY);
  }

  lemma UpwardFits(pairs: set<Pair>, name: string, log: seq<Msg>)
    requires forall i :: 0 <= i < |log| ==> SentFits(pairs, log[i])
    ensures forall i :: 0 <= i < |log| ==> Upward(name, log)[i] != [] && SentFits(pairs, Upward(name, log)[i][1..])
  {
    forall i | 0 <= i < |log|
      ensures Upward(name, log)[i] != [] && SentFits(pairs, Upward(name, log)[i][1..])
    {
      assert Upward(name, log)[i][1..] == log[i];
    }
  }

  lemma AddedSentFits(pairs: set<Pair>, w: WorkerSpec.State, w': WorkerSpec.State)
    requires WorkerFits(pairs, w')
    ensures var added := Added(w.sent, w'.sent); forall i :: 0 <= i < |added| ==> SentFits(pairs, added[i])
  {
  }

  lemma WorkerChanges(pairs: set<Pair>, n: Net, i: nat, w': WorkerSpec.State, names: seq<string>, more: seq<Msg>)
    requires AllFit(pairs, n) && i < |n.workers| && WorkerFits(pairs, w')
    requires forall k :: 0 <= k < |more| ==> more[k] != [] && SentFits(pairs, more[k][1..])
    ensures AllFit(pairs, n.(workers := n.workers[i := w'], names := names, up := n.up + more))
  {
  }

  lemma MovedFits(pairs: set<Pair>, s: Setting, n: Net, i: nat, step: WorkerSpec.Step, name: string)
    requires AllFit(pairs, n) && i < |n.workers| == |n.names| && AddressesFit(n.workers[i])
    requires WorkerSpec.Enabled(s.config, n.workers[i], step)
    requires step.Take? && FrameText(step.msg[2]) == REQUEST ==> RequestFits(pairs, step.msg[3..])
    ensures AllFit(pairs, WorkerMoved(s, n, i, step, name))
  {
    var w := n.workers[i];
    var w' := WorkerSpec.Next(s.config, w, step);
    NextFits(pairs, s.config, w, step);
    AddedSentFits(pairs, w, w');
    UpwardFits(pairs, name, Added(w.sent, w'.sent));
    WorkerChanges(pairs, n, i, w', n.names[i := name], Upward(name, Added(w.sent, w'.sent)));
  }

  // ----- Steps of the broker

  lemma LocalReplyFits(pairs: set<Pair>, sender: string, service: string, results: Body)
    requires NUL !in sender && results.Results? && (sender, results.session) in pairs
    ensures var replies := BrokerSpec.LocalReply(sender, service, results);
            forall i :: 0 <= i < |replies| ==> ClientFits(pairs, replies[i])
  {
  }

  lemma LocalRepliesFit(pairs: set<Pair>, sender: string, msg: Msg, local: set<string>)
    requires NUL !in sender && (sender, RequestOf(msg).session) in pairs
    ensures var replies := BrokerSpec.LocalReplies(sender, msg, local);
            forall i :: 0 <= i < |replies| ==> ClientFits(pairs, replies[i])
  {
    var req := RequestOf(msg);
    var (service, rest) := Unwrap(msg);
    var service2 := if req.wellFormed then service else Unwrap(rest).0;
    var known := BrokerSpec.Known(req.actions, local);
    LocalReplyFits(pairs, sender, service, Results(req.session, [Malformed("N/A")]));
    LocalReplyFits(pairs, sender, service2, Results(req.session, BrokerSpec.LocalResults(|known|)));
  }

  lemma ForwardedFits(pairs: set<Pair>, sender: string, req: Body, local: set<string>)
    requires NUL !in sender && req.Request? && (sender, req.session) in pairs
    ensures RequestFits(pairs, BrokerSpec.Forwarded(sender, req, local))
  {
    UnwrapWrapIff([Json(Request(req.session, BrokerSpec.Unknown(req.actions, local), true))], sender);
  }

  lemma ReplyOfFits(pairs: set<Pair>, m: Msg)
    requires ResultsFit(pairs, Unwrap(m).0, Unwrap(m).1)
    ensures ClientFits(pairs, BrokerSpec.ReplyOf(m))
  {
    var (client, body) := Unwrap(m);
    var reply := BrokerSpec.ReplyOf(m);
    if body != [] {
      assert reply[|reply| - 1] == body[|body| - 1];
    }
  }

  /** The requests among the messages that a step adds to the log are among the accepted ones. */
  lemma AddedFit(pairs: set<Pair>, s: Setting, b: BrokerSpec.Broker, e: BrokerSpec.Event, ch: BrokerSpec.Choice,
                 b': BrokerSpec.Broker)
    requires BrokerSpec.Step(b, s.heartbeat, s.local, e, ch, b') && BrokerSpec.Invariant(b')
    requires forall i :: 0 <= i < |b'.accepted| ==> RequestFits(pairs, b'.accepted[i])
    ensures var added := Added(b.toWorkers, b'.toWorkers); forall i :: 0 <= i < |added| ==> DownFits(pairs, added[i])
  {
    BrokerSpec.StepSends(b, s.heartbeat, s.local, e, ch, b');
    var added := Added(b.toWorkers, b'.toWorkers);
    forall i | 0 <= i < |added| && BrokerSpec.IsRequest(added[i])
      ensures RequestFits(pairs, added[i][4..])
    {
      var k := |b.toWorkers| + i;
      assert added[i] == b'.toWorkers[k];
      InRequests(b'.toWorkers, k);
      assert added[i][4..] in b'.accepted;
    }
  }

  lemma BrokerStepFits(pairs: set<Pair>, s: Setting, n: Net, e: BrokerSpec.Event, ch: BrokerSpec.Choice,
                       b': BrokerSpec.Broker, down': seq<Msg>)
    requires AllFit(pairs, n) && BrokerSpec.Invariant(n.broker) && BrokerSpec.ValidEvent(e)
    requires BrokerStep(s, n, e, ch, b', down')
    requires forall i :: 0 <= i < |NewlyAccepted(s, e)| ==> RequestFits(pairs, NewlyAccepted(s, e)[i])
    requires var sent := BrokerSpec.SentToClients(n.broker, s.local, e);
             forall i :: 0 <= i < |sent| ==> ClientFits(pairs, sent[i])
    ensures AllFit(pairs, n.(broker := b', down := down'))
  {
    BrokerKeeps(s, n.broker, e, ch, b');
    BrokerSpec.StepSendsToClients(n.broker, s.heartbeat, s.local, e, ch, b');
    AddedFit(pairs, s, n.broker, e, ch, b');
  }

  lemma AskFits(s: Setting, n: Net, client: string, msg: Msg, ch: BrokerSpec.Choice, n': Net)
    requires AllFit(AskedPairs(n.asked), n) && BrokerSpec.Invariant(n.broker) && ClientAsking(s, n, client, msg, ch, n')
    ensures AllFit(AskedPairs(n'.asked), n')
  {
    var pairs, sender := AskedPairs(n'.asked), AddressText(client);
    AskedGrows(n.asked, Ask(client, msg));
    MorePairs(AskedPairs(n.asked), pairs, n);
    RoutableSender(client, msg);
    ForwardedFits(pairs, sender, RequestOf(msg), s.local);
    LocalRepliesFit(pairs, sender, msg, s.local);
    BrokerStepFits(pairs, s, n, BrokerSpec.FromClient(sender, msg), ch, n'.broker, n'.down);
  }

  lemma ReadReplyFits(pairs: set<Pair>, b: BrokerSpec.Broker, m: Msg)
    requires IsUpward(m) && SentFits(pairs, m[1..]) && |m| > 3
    requires BrokerSpec.Forwards(b, FrameText(OffWire(m[0])), m[3..])
    ensures ClientFits(pairs, BrokerSpec.ReplyOf(m[3..][1..]))
  {
    UpwardFrames(m);
    ReplyOfFits(pairs, m[4..]);
  }

  lemma UpWithout(pairs: set<Pair>, n: Net, at: nat, lostUp: multiset<Task>)
    requires AllFit(pairs, n) && at < |n.up|
    ensures AllFit(pairs, n.(up := MdpSystem.Without(n.up, at), lostUp := lostUp))
  {
  }

  lemma DownWithout(pairs: set<Pair>, n: Net, at: nat, lostDown: multiset<Task>)
    requires AllFit(pairs, n) && at < |n.down|
    ensures AllFit(pairs, n.(down := MdpSystem.Without(n.down, at), lostDown := lostDown))
  {
  }

  lemma ReadFits(pairs: set<Pair>, s: Setting, n: Net, at: nat, ch: BrokerSpec.Choice, n': Net)
    requires AllFit(pairs, n) && BrokerSpec.Invariant(n.broker) && BrokerReading(s, n, at, ch, n')
    requires IsUpward(n.up[at])
    ensures AllFit(pairs, n')
  {
    var m := n.up[at];
    UpwardIsRead(m);
    var e := BrokerSpec.FromWorker(FrameText(OffWire(m[0])), m[3..]);
    if BrokerSpec.Forwards(n.broker, e.sender, e.msg) {
      ReadReplyFits(pairs, n.broker, m);
    }
    BrokerStepFits(pairs, s, n, e, ch, n'.broker, n'.down);
    UpWithout(pairs, n.(broker := n'.broker, down := n'.down), at, n'.lostUp);
  }

  lemma WorkerReadFits(pairs: set<Pair>, s: Setting, n: Net, i: nat, at: nat, n': Net)
    requires AllFit(pairs, n) && WorkerReading(s, n, i, at, n') && IsDownward(n.down[at])
    requires AddressesFit(n.workers[i])
    ensures AllFit(pairs, n')
  {
    var m := n.down[at];
    DownwardTasks(m);
    assert m[1..][3..] == m[4..];
    MovedFits(pairs, s, n, i, WorkerSpec.Take(m[1..]), n.names[i]);
    DownWithout(pairs, WorkerMoved(s, n, i, WorkerSpec.Take(m[1..]), n.names[i]), at, n.lostDown);
  }

  // ----- Runs

  lemma StepFits(s: Setting, n: Net, e: Event, n': Net)
    requires AllFit(AskedPairs(n.asked), n) && BrokerSpec.Invariant(n.broker) && MdpSystem.Step(s, n, e, n')
    requires forall i :: 0 <= i < |n.workers| ==> AddressesFit(n.workers[i])
    requires forall i :: 0 <= i < |n.up| ==> IsUpward(n.up[i])
    requires forall i :: 0 <= i < |n.down| ==> IsDownward(n.down[i])
    ensures AllFit(AskedPairs(n'.asked), n')
  {
    var pairs := AskedPairs(n.asked);
    match e
    case ClientAsks(client, msg, ch) => AskFits(s, n, client, msg, ch, n');
    case BrokerReads(at, ch) => ReadFits(pairs, s, n, at, ch, n');
    case BrokerTicks(ch) => BrokerStepFits(pairs, s, n, BrokerSpec.Tick, ch, n'.broker, n'.down);
    case WorkerReads(i, at) => WorkerReadFits(pairs, s, n, i, at, n');
    case WorkerMoves(i, step, name) => MovedFits(pairs, s, n, i, step, name);
    case LosesDown(at) => DownWithout(pairs, n, at, n'.lostDown);
    case LosesUp(at) => UpWithout(pairs, n, at, n'.lostUp);
  }

  lemma NetInvariantFits(s: Setting, n: Net)
    requires MdpSystem.Invariant(s, n)
    ensures BrokerSpec.Invariant(n.broker)
    ensures forall i :: 0 <= i < |n.workers| ==> AddressesFit(n.workers[i])
    ensures forall i :: 0 <= i < |n.up| ==> IsUpward(n.up[i])
    ensures forall i :: 0 <= i < |n.down| ==> IsDownward(n.down[i])
  {
    forall i | 0 <= i < |n.workers|
      ensures AddressesFit(n.workers[i])
    {
      InvariantFits(s.config, n.workers[i]);
    }
  }

  lemma {:induction false} RunFits(s: Setting, ns: seq<Net>, es: seq<Event>)
    requires IsRun(s, ns, es)
    ensures AllFit(AskedPairs(ns[|es|].asked), ns[|es|])
    decreases |es|
  {
    if es != [] {
      var k := |es| - 1;
      var n := ns[k];
      RunFits(s, ns[..k + 1], es[..k]);
      RunKeeps(s, ns[..k + 1], es[..k]);
      assert ns[..k + 1][k] == n;
      NetInvariantFits(s, n);
      StepFits(s, n, es[k], ns[k + 1]);
    }
  }

  lemma FitsIsAsked(asked: seq<Ask>, m: Msg)
    requires HoldsResults(m) && ClientFits(AskedPairs(asked), m) && IsAddressed(m)
    requires forall i :: 0 <= i < |asked| ==> Routable(asked[i].client)
    ensures AskedIn(asked, m)
  {
    var i :| 0 <= i < |asked| && AddressText(asked[i].client) == FrameText(m[0]) &&
      RequestOf(asked[i].msg).session == m[|m| - 1].body.session;
    RoutableCrosses(asked[i].client);
  }

  /** In every run, every message with results that is sent to a client, whatever they report, is in a
      session in which the very client to whose identity it leaves on the wire has asked. */
  lemma SessionsReachTheirClient(s: Setting, ns: seq<Net>, es: seq<Event>)
    requires IsRun(s, ns, es)
    ensures var n := ns[|es|];
            forall k :: 0 <= k < |n.broker.toClients| && HoldsResults(n.broker.toClients[k]) ==>
              AskedIn(n.asked, n.broker.toClients[k])
  {
    var n := ns[|es|];
    RunFits(s, ns, es);
    RunRepliesFit(s, ns, es);
    forall k | 0 <= k < |n.broker.toClients| && HoldsResults(n.broker.toClients[k])
      ensures AskedIn(n.asked, n.broker.toClients[k])
    {
      FitsIsAsked(n.asked, n.broker.toClients[k]);
    }
  }

  ghost predicate AskedIn(asked: seq<Ask>, m: Msg)
    requires HoldsResults(m)
  {
    exists i :: 0 <= i < |asked| && OnWire(m[0]) == Text(asked[i].client) &&
      RequestOf(asked[i].msg).session == m[|m| - 1].body.session
  }
}
