/** The broker, any number of workers, and the channels between them. */
module MdpSystem {
  import opened Wrappers
  import opened MdpMessage
  import opened Tasks
  import opened PostponedActions
  import opened ZmqMessage
  import BrokerSpec
  import WorkerSpec

  /** A client's request: the client's identity, in bytes, and what the broker received after the header. */
  datatype Ask = Ask(client: string, msg: Msg)

  datatype Setting = Setting(heartbeat: int, local: set<string>, config: WorkerSpec.Config)

  /** Worker i has the identity names[i], in bytes.  A message on its way down is as the broker sent it,
      with the receiver's address in front; one on its way up is as the worker sent it, with the sender's
      identity in front.  Lost are the tasks of messages that a channel or the broker dropped. */
  datatype Net = Net(
    broker: BrokerSpec.Broker, workers: seq<WorkerSpec.State>, names: seq<string>,
    down: seq<Msg>, up: seq<Msg>,
    asked: seq<Ask>, lostDown: multiset<Task>, lostUp: multiset<Task>)

  datatype Event =
    | ClientAsks(client: string, msg: Msg, ch: BrokerSpec.Choice)
    | BrokerReads(at: nat, ch: BrokerSpec.Choice)
    | BrokerTicks(ch: BrokerSpec.Choice)
    | WorkerReads(i: nat, at: nat)
    | WorkerMoves(i: nat, step: WorkerSpec.Step, name: string)
    | LosesDown(at: nat)
    | LosesUp(at: nat)

  function Without(s: seq<Msg>, i: nat): seq<Msg>
    requires i < |s|
  {
    s[..i] + s[i + 1..]
  }

  /** No earlier message has the same frame in front: a channel delivers in order. */
  predicate IsNext(s: seq<Msg>, at: nat) {
    at < |s| && s[at] != [] && forall k :: 0 <= k < at ==> s[k] != [] && s[k][0] != s[at][0]
  }

  function Added(log: seq<Msg>, log': seq<Msg>): seq<Msg> {
    if |log| <= |log'| then log'[|log|..] else []
  }

  function Upward(name: string, log: seq<Msg>): seq<Msg> {
    seq(|log|, i requires 0 <= i < |log| => [Text(name)] + log[i])
  }

  /** A worker's message as the broker receives it: the worker sent its frames, but not its identity. */
  function FromUp(m: Msg): Msg {
    if m == [] then [] else Received([m[0]] + Sent(m[1..]))
  }

  /** A message of the broker as a worker receives it, without the address. */
  function FromDown(m: Msg): Msg {
    if m == [] then [] else Received(Sent(m[1..]))
  }

  /** The broker handles an event, and what it sends to workers enters the channel. */
  ghost predicate BrokerStep(s: Setting, n: Net, e: BrokerSpec.Event, ch: BrokerSpec.Choice, b': BrokerSpec.Broker,
                             down': seq<Msg>) {
    && BrokerSpec.Step(n.broker, s.heartbeat, s.local, e, ch, b')
    && down' == n.down + Added(n.broker.toWorkers, b'.toWorkers)
  }

  /** A worker makes a step, and what it sends enters the channel under its name. */
  function WorkerMoved(s: Setting, n: Net, i: nat, step: WorkerSpec.Step, name: string): Net
    requires i < |n.workers| == |n.names| && WorkerSpec.Enabled(s.config, n.workers[i], step)
  {
    var w' := WorkerSpec.Next(s.config, n.workers[i], step);
    n.(workers := n.workers[i := w'], names := n.names[i := name],
       up := n.up + Upward(name, Added(n.workers[i].sent, w'.sent)))
  }

  ghost predicate ClientAsking(s: Setting, n: Net, client: string, msg: Msg, ch: BrokerSpec.Choice, n': Net) {
    && Routable(client)
    && BrokerStep(s, n, BrokerSpec.FromClient(AddressText(client), msg), ch, n'.broker, n'.down)
    && n' == n.(broker := n'.broker, down := n'.down, asked := n.asked + [Ask(client, msg)])
  }

  ghost predicate BrokerReading(s: Setting, n: Net, at: nat, ch: BrokerSpec.Choice, n': Net) {
    && IsNext(n.up, at)
    && var letter := BrokerSpec.Opened(FromUp(n.up[at]), MDPW_WORKER);
       && letter.Some?
       && var (sender, msg) := letter.value;
          && BrokerStep(s, n, BrokerSpec.FromWorker(sender, msg), ch, n'.broker, n'.down)
          && var lost := if BrokerSpec.Forwards(n.broker, sender, msg) then multiset{} else UpTasks(n.up[at]);
             n' == n.(broker := n'.broker, down := n'.down, up := Without(n.up, at), lostUp := n.lostUp + lost)
  }

  ghost predicate BrokerTicking(s: Setting, n: Net, ch: BrokerSpec.Choice, n': Net) {
    && BrokerStep(s, n, BrokerSpec.Tick, ch, n'.broker, n'.down)
    && n' == n.(broker := n'.broker, down := n'.down)
  }

  ghost predicate WorkerReading(s: Setting, n: Net, i: nat, at: nat, n': Net) {
    && i < |n.workers| == |n.names| && IsNext(n.down, at) && OnWire(n.down[at][0]) == Text(n.names[i])
    && var step := WorkerSpec.Take(FromDown(n.down[at]));
       && WorkerSpec.Enabled(s.config, n.workers[i], step)
       && n' == WorkerMoved(s, n, i, step, n.names[i]).(down := Without(n.down, at))
  }

  /** A worker that connects again does so under a new name. */
  ghost predicate WorkerMoving(s: Setting, n: Net, i: nat, step: WorkerSpec.Step, name: string, n': Net) {
    && i < |n.workers| == |n.names| && !step.Take? && (step.Connect? || name == n.names[i])
    && WorkerSpec.Enabled(s.config, n.workers[i], step)
    && n' == WorkerMoved(s, n, i, step, name)
  }

  ghost predicate Step(s: Setting, n: Net, e: Event, n': Net) {
    match e
    case ClientAsks(client, msg, ch) => ClientAsking(s, n, client, msg, ch, n')
    case BrokerReads(at, ch) => BrokerReading(s, n, at, ch, n')
    case BrokerTicks(ch) => BrokerTicking(s, n, ch, n')
    case WorkerReads(i, at) => WorkerReading(s, n, i, at, n')
    case WorkerMoves(i, step, name) => WorkerMoving(s, n, i, step, name, n')
    case LosesDown(at) =>
      at < |n.down| && n' == n.(down := Without(n.down, at), lostDown := n.lostDown + DownTasks(n.down[at]))
    case LosesUp(at) =>
      at < |n.up| && n' == n.(up := Without(n.up, at), lostUp := n.lostUp + UpTasks(n.up[at]))
  }

  ghost predicate IsInitial(n: Net) {
    && n.broker == BrokerSpec.INITIAL && |n.workers| == |n.names|
    && (forall i :: 0 <= i < |n.workers| ==> n.workers[i] == WorkerSpec.INITIAL)
    && n.down == [] && n.up == [] && n.asked == [] && n.lostDown == multiset{} && n.lostUp == multiset{}
  }

  ghost predicate IsRun(s: Setting, ns: seq<Net>, es: seq<Event>) {
    && |ns| == |es| + 1 && IsInitial(ns[0])
    && forall i :: 0 <= i < |es| ==> Step(s, ns[i], es[i], ns[i + 1])
  }

  // ----- Accounts

  /** What a client's request leaves to the workers: a task for each of its actions that is not local. */
  function AskTasks(a: Ask, local: set<string>): multiset<Task> {
    RemoteTasks(AddressText(a.client), RequestOf(a.msg).session, RequestOf(a.msg).actions, local)
  }

  function RemoteTasks(client: string, session: string, actions: seq<Action>, local: set<string>): multiset<Task> {
    if actions == [] then multiset{}
    else
      var last := actions[|actions| - 1];
      RemoteTasks(client, session, actions[..|actions| - 1], local) +
      if last.name in local then multiset{} else multiset{Task(client, session, last.id)}
  }

  function AskedTasks(asked: seq<Ask>, local: set<string>): multiset<Task> {
    if asked == [] then multiset{} else AskedTasks(asked[..|asked| - 1], local) + AskTasks(asked[|asked| - 1], local)
  }

  function DownTasks(m: Msg): multiset<Task> {
    if BrokerSpec.IsRequest(m) then RequestTasks(m[4..]) else multiset{}
  }

  function UpTasks(m: Msg): multiset<Task> {
    if m == [] then multiset{} else ReplyTasks(m[1..])
  }

  /** What a message reports done to the client that it is addressed to. */
  function ClientTasks(m: Msg): multiset<Task> {
    if m == [] then multiset{} else MessageTasks(FrameText(m[0]), m)
  }

  function Taken(w: WorkerSpec.State): multiset<Task> {
    w.taken
  }

  function Answered(w: WorkerSpec.State): multiset<Task> {
    Sum(w.sent, ReplyTasks)
  }

  ghost predicate AskBalance(s: Setting, n: Net) {
    AskedTasks(n.asked, s.local) == Sum(n.broker.accepted, RequestTasks)
  }

  ghost predicate DownBalance(n: Net) {
    Sum(n.broker.toWorkers, DownTasks) == Sum(n.down, DownTasks) + Sum(n.workers, Taken) + n.lostDown
  }

  ghost predicate UpBalance(n: Net) {
    Sum(n.workers, Answered) == Sum(n.up, UpTasks) + Sum(n.broker.toClients, ClientTasks) + n.lostUp
  }

  ghost predicate WorkersFit(s: Setting, n: Net) {
    && |n.workers| == |n.names|
    && forall i :: 0 <= i < |n.workers| ==> WorkerSpec.Invariant(s.config, n.workers[i])
  }

  ghost predicate AllAddressesFit(n: Net) {
    forall i :: 0 <= i < |n.workers| ==> AddressesFit(n.workers[i])
  }

  /** The addresses that a worker holds, and so the messages that it sends, cross the channels unchanged. */
  ghost predicate AddressesFit(w: WorkerSpec.State) {
    && Unchanged(Text(w.replyTo)) && (w.reply.Some? ==> Crosses(w.reply.value))
    && QueueCrosses(w.queue)
    && (forall i :: 0 <= i < |w.sent| ==> Crosses(w.sent[i]))
  }

  /** What a worker put into the channel. */
  ghost predicate IsUpward(m: Msg) {
    m != [] && m[0].Text? && WorkerSpec.IsWorkerMessage(m[1..]) && Crosses(m[1..])
  }

  /** What the broker put into the channel: a worker can handle it. */
  ghost predicate IsDownward(m: Msg) {
    && BrokerSpec.IsSent(m) && Crosses(m[1..])
    && (m[3] == Text(REQUEST) ==> Unwrap(m[4..]).1 != [])
  }

  /** A client's request as it is accepted: not empty, and its address crosses the channels unchanged. */
  ghost predicate IsAccepted(m: Msg) {
    Unwrap(m).1 != [] && Crosses(m)
  }

  /** What is sent to a client has an address in front. */
  ghost predicate IsAddressed(m: Msg) {
    m != [] && m[0] == Text(FrameText(m[0]))
  }

  ghost predicate ChannelsFit(n: Net) {
    && (forall i :: 0 <= i < |n.up| ==> IsUpward(n.up[i]))
    && (forall i :: 0 <= i < |n.down| ==> IsDownward(n.down[i]))
    && (forall i :: 0 <= i < |n.broker.accepted| ==> IsAccepted(n.broker.accepted[i]))
  }

  ghost predicate Invariant(s: Setting, n: Net) {
    && BrokerSpec.Invariant(n.broker) && WorkersFit(s, n) && ChannelsFit(n)
    && AskBalance(s, n) && DownBalance(n) && UpBalance(n)
    && AllAddressesFit(n) && AsksFit(n) && RepliesFit(n)
  }

  ghost predicate AsksFit(n: Net) {
    forall i :: 0 <= i < |n.asked| ==> Routable(n.asked[i].client)
  }

  ghost predicate RepliesFit(n: Net) {
    forall i :: 0 <= i < |n.broker.toClients| ==> IsAddressed(n.broker.toClients[i])
  }

  // ----- Steps of the broker

  /** What the broker's event means to its requests. */
  function NewlyAccepted(s: Setting, e: BrokerSpec.Event): seq<Msg> {
    match e
    case FromClient(client, msg) =>
      if BrokerSpec.Unknown(RequestOf(msg).actions, s.local) == [] then []
      else [BrokerSpec.Forwarded(client, RequestOf(msg), s.local)]
    case _ => []
  }

  lemma BrokerKeeps(s: Setting, b: BrokerSpec.Broker, e: BrokerSpec.Event, ch: BrokerSpec.Choice, b': BrokerSpec.Broker)
    requires BrokerSpec.Invariant(b) && BrokerSpec.Step(b, s.heartbeat, s.local, e, ch, b') && BrokerSpec.ValidEvent(e)
    ensures BrokerSpec.Invariant(b') && b'.accepted == b.accepted + NewlyAccepted(s, e)
  {
    match e
    case FromWorker(sender, msg) => BrokerSpec.WorkerStepKeeps(b, s.heartbeat, sender, msg, ch, b');
    case FromClient(sender, msg) => BrokerSpec.ClientStepKeeps(b, s.local, sender, msg, ch, b');
    case Tick => BrokerSpec.TickStepKeeps(b, ch, b');
  }

  /** What is left of a client's request for the workers. */
  function Remainder(req: Body, local: set<string>): Body
    requires req.Request?
  {
    Request(req.session, BrokerSpec.Unknown(req.actions, local), true)
  }

  lemma ForwardedUnwraps(client: string, req: Body, local: set<string>)
    requires req.Request? && NUL !in client
    ensures var m := BrokerSpec.Forwarded(client, req, local);
            && m == [Text(client), Text(""), Json(Remainder(req, local))]
            && Unwrap(m) == (client, [Json(Remainder(req, local))])
  {
    UnwrapWrapIff([Json(Remainder(req, local))], client);
  }

  lemma {:induction false} UnknownSnoc(actions: seq<Action>, a: Action, local: set<string>)
    ensures BrokerSpec.Unknown(actions + [a], local) ==
            BrokerSpec.Unknown(actions, local) + if a.name in local then [] else [a]
  {
    if actions == [] {
      assert [] + [a] == [a] && [a][1..] == [];
    } else {
      UnknownSnoc(actions[1..], a, local);
      assert (actions + [a])[1..] == actions[1..] + [a];
    }
  }

  lemma {:induction false} ActionTasksSnoc(client: string, session: string, actions: seq<Action>, a: Action)
    ensures ActionTasks(client, session, actions + [a]) ==
            ActionTasks(client, session, actions) + multiset{Task(client, session, a.id)}
  {
    if actions == [] {
      assert [] + [a] == [a] && [a][1..] == [];
    } else {
      ActionTasksSnoc(client, session, actions[1..], a);
      assert (actions + [a])[1..] == actions[1..] + [a];
    }
  }

  /** What the broker forwards are the actions that are not local, one task for each. */
  lemma {:induction false} UnknownAreRemote(client: string, session: string, actions: seq<Action>, local: set<string>)
    ensures ActionTasks(client, session, BrokerSpec.Unknown(actions, local)) ==
            RemoteTasks(client, session, actions, local)
    decreases |actions|
  {
    if actions != [] {
      var front, last := actions[..|actions| - 1], actions[|actions| - 1];
      UnknownAreRemote(client, session, front, local);
      UnknownSnoc(front, last, local);
      assert front + [last] == actions;
      ActionTasksSnoc(client, session, BrokerSpec.Unknown(front, local), last);
      assert BrokerSpec.Unknown(front, local) + [] == BrokerSpec.Unknown(front, local);
    }
  }

  lemma ForwardedTasks(client: string, req: Body, local: set<string>)
    requires req.Request? && NUL !in client
    ensures Unwrap(BrokerSpec.Forwarded(client, req, local)).1 != []
    ensures Unchanged(Text(client)) ==> Crosses(BrokerSpec.Forwarded(client, req, local))
    ensures RequestTasks(BrokerSpec.Forwarded(client, req, local)) ==
            RemoteTasks(client, req.session, req.actions, local)
  {
    ForwardedUnwraps(client, req, local);
    UnknownAreRemote(client, req.session, req.actions, local);
    assert RequestOf([Json(Remainder(req, local))]) == Remainder(req, local);
  }

  lemma {:induction false} InRequests(log: seq<Msg>, i: nat)
    requires i < |log| && BrokerSpec.IsRequest(log[i])
    ensures log[i][4..] in BrokerSpec.RequestsIn(log)
    decreases |log|
  {
    if i < |log| - 1 {
      InRequests(log[..|log| - 1], i);
    }
  }

  lemma {:induction false} RequestsInTasks(log: seq<Msg>)
    ensures Sum(log, DownTasks) == Sum(BrokerSpec.RequestsIn(log), RequestTasks)
    decreases |log|
  {
    if log != [] {
      var last := log[|log| - 1];
      var front := log[..|log| - 1];
      RequestsInTasks(front);
      if BrokerSpec.IsRequest(last) {
        SumAppend(BrokerSpec.RequestsIn(front), [last[4..]], RequestTasks);
        SumOne(last[4..], RequestTasks);
      } else {
        assert BrokerSpec.RequestsIn(front) + [] == BrokerSpec.RequestsIn(front);
      }
    }
  }

  /** What the broker adds to the channel is what it adds to its log, and a worker can handle it. */
  lemma BrokerSendsDown(s: Setting, n: Net, e: BrokerSpec.Event, ch: BrokerSpec.Choice, b': BrokerSpec.Broker,
                        down': seq<Msg>)
    requires ChannelsFit(n) && BrokerSpec.Invariant(b') && BrokerStep(s, n, e, ch, b', down')
    requires forall i :: 0 <= i < |b'.accepted| ==> IsAccepted(b'.accepted[i])
    ensures b'.toWorkers == n.broker.toWorkers + Added(n.broker.toWorkers, b'.toWorkers)
    ensures forall i :: 0 <= i < |down'| ==> IsDownward(down'[i])
  {
    BrokerSpec.StepSends(n.broker, s.heartbeat, s.local, e, ch, b');
    AddedIsDownward(n.broker.toWorkers, b');
  }

  lemma AddedIsDownward(log: seq<Msg>, b: BrokerSpec.Broker)
    requires BrokerSpec.Fifo(b) && forall i :: 0 <= i < |b.accepted| ==> IsAccepted(b.accepted[i])
    requires log <= b.toWorkers && forall k :: |log| <= k < |b.toWorkers| ==> BrokerSpec.IsSent(b.toWorkers[k])
    ensures forall i :: 0 <= i < |Added(log, b.toWorkers)| ==> IsDownward(Added(log, b.toWorkers)[i])
  {
    forall i | 0 <= i < |Added(log, b.toWorkers)|
      ensures IsDownward(Added(log, b.toWorkers)[i])
    {
      assert Added(log, b.toWorkers)[i] == b.toWorkers[|log| + i];
      SentIsDownward(b, |log| + i);
    }
  }

  lemma SentIsDownward(b: BrokerSpec.Broker, k: nat)
    requires BrokerSpec.Fifo(b) && forall i :: 0 <= i < |b.accepted| ==> IsAccepted(b.accepted[i])
    requires k < |b.toWorkers| && BrokerSpec.IsSent(b.toWorkers[k])
    ensures IsDownward(b.toWorkers[k])
  {
    var m := b.toWorkers[k];
    if BrokerSpec.IsRequest(m) {
      InRequests(b.toWorkers, k);
      assert m[4..] in b.accepted;
    }
    SentCrosses(m);
  }

  lemma SentCrosses(m: Msg)
    requires BrokerSpec.IsSent(m) && (BrokerSpec.IsRequest(m) ==> Crosses(m[4..]))
    ensures Crosses(m[1..])
  {
    forall i | 0 <= i < |m[1..]|
      ensures Unchanged(m[1..][i])
    {
      if i >= 3 {
        assert m[1..][i] == m[4..][i - 3];
      }
    }
  }

  lemma BrokerDownBalance(n: Net, b': BrokerSpec.Broker, down': seq<Msg>)
    requires DownBalance(n) && b'.toWorkers == n.broker.toWorkers + Added(n.broker.toWorkers, b'.toWorkers)
    requires down' == n.down + Added(n.broker.toWorkers, b'.toWorkers)
    ensures DownBalance(n.(broker := b', down := down'))
  {
    var added := Added(n.broker.toWorkers, b'.toWorkers);
    SumAppend(n.broker.toWorkers, added, DownTasks);
    SumAppend(n.down, added, DownTasks);
    Aside(Sum(n.down, DownTasks), Sum(n.workers, Taken), n.lostDown, Sum(added, DownTasks));
  }

  lemma Aside(x: multiset<Task>, y: multiset<Task>, z: multiset<Task>, t: multiset<Task>)
    ensures (x + y + z) + t == (x + t) + y + z
    ensures (x + t) + y + z == x + (y + t) + z
    ensures (x + t) + y + z == x + y + (z + t)
  {
  }

  // ----- A client asks

  lemma {:induction false} NoneDone(client: string, session: string, results: seq<Result>)
    requires forall i :: 0 <= i < |results| ==> !Reports(results[i])
    ensures DoneTasks(client, session, results) == multiset{}
    decreases |results|
  {
    if results != [] {
      NoneDone(client, session, results[..|results| - 1]);
    }
  }

  lemma LocalReplyTasks(sender: string, service: string, session: string, results: seq<Result>)
    requires forall i :: 0 <= i < |results| ==> !Reports(results[i])
    ensures Sum(BrokerSpec.LocalReply(sender, service, Results(session, results)), ClientTasks) == multiset{}
  {
    var replies := BrokerSpec.LocalReply(sender, service, Results(session, results));
    if replies != [] {
      var m := replies[0];
      assert m[|m| - 1] == Json(Results(session, results));
      NoneDone(FrameText(m[0]), session, results);
      SumOne(m, ClientTasks);
    }
  }

  /** What the broker answers itself reports no worker's task done. */
  lemma LocalRepliesTasks(sender: string, msg: Msg, local: set<string>)
    ensures Sum(BrokerSpec.LocalReplies(sender, msg, local), ClientTasks) == multiset{}
  {
    var req := RequestOf(msg);
    var known := BrokerSpec.Known(req.actions, local);
    var (service, rest) := Unwrap(msg);
    var service2 := if req.wellFormed then service else Unwrap(rest).0;
    var report := if req.wellFormed then []
      else BrokerSpec.LocalReply(sender, service, Results(req.session, [Malformed("N/A")]));
    var more := if known == [] then []
      else BrokerSpec.LocalReply(sender, service2, Results(req.session, BrokerSpec.LocalResults(|known|)));
    LocalReplyTasks(sender, service, req.session, [Malformed("N/A")]);
    LocalReplyTasks(sender, service2, req.session, BrokerSpec.LocalResults(|known|));
    SumAppend(report, more, ClientTasks);
  }

  /** The address of a client that asks crosses the channels unchanged. */
  predicate SenderFits(e: BrokerSpec.Event) {
    e.FromClient? ==> NUL !in e.sender && Unchanged(Text(e.sender))
  }

  lemma NewlyAcceptedFit(s: Setting, e: BrokerSpec.Event)
    requires SenderFits(e)
    ensures forall i :: 0 <= i < |NewlyAccepted(s, e)| ==> IsAccepted(NewlyAccepted(s, e)[i])
  {
    if e.FromClient? {
      ForwardedTasks(e.sender, RequestOf(e.msg), s.local);
    }
  }

  lemma LocalReplyAddressed(sender: string, service: string, results: Body)
    ensures var replies := BrokerSpec.LocalReply(sender, service, results);
            forall i :: 0 <= i < |replies| ==> IsAddressed(replies[i])
  {
  }

  lemma RepliesAddressed(b: BrokerSpec.Broker, local: set<string>, e: BrokerSpec.Event)
    ensures var sent := BrokerSpec.SentToClients(b, local, e); forall i :: 0 <= i < |sent| ==> IsAddressed(sent[i])
  {
    match e
    case FromWorker(_, _) =>
    case FromClient(sender, msg) =>
      var req := RequestOf(msg);
      var (service, rest) := Unwrap(msg);
      var service2 := if req.wellFormed then service else Unwrap(rest).0;
      var known := BrokerSpec.Known(req.actions, local);
      LocalReplyAddressed(sender, service, Results(req.session, [Malformed("N/A")]));
      LocalReplyAddressed(sender, service2, Results(req.session, BrokerSpec.LocalResults(|known|)));
    case Tick =>
  }

  lemma RepliesKept(s: Setting, n: Net, e: BrokerSpec.Event, ch: BrokerSpec.Choice, b': BrokerSpec.Broker)
    requires RepliesFit(n) && BrokerSpec.Step(n.broker, s.heartbeat, s.local, e, ch, b')
    ensures RepliesFit(n.(broker := b'))
  {
    BrokerSpec.StepSendsToClients(n.broker, s.heartbeat, s.local, e, ch, b');
    RepliesAddressed(n.broker, s.local, e);
  }

  /** What every event of the broker keeps. */
  lemma BrokerStepKeeps(s: Setting, n: Net, e: BrokerSpec.Event, ch: BrokerSpec.Choice, b': BrokerSpec.Broker,
                        down': seq<Msg>)
    requires BrokerSpec.Invariant(n.broker) && ChannelsFit(n) && DownBalance(n) && RepliesFit(n)
    requires BrokerStep(s, n, e, ch, b', down') && BrokerSpec.ValidEvent(e) && SenderFits(e)
    ensures BrokerSpec.Invariant(b') && b'.accepted == n.broker.accepted + NewlyAccepted(s, e)
    ensures ChannelsFit(n.(broker := b', down := down')) && DownBalance(n.(broker := b', down := down'))
    ensures RepliesFit(n.(broker := b'))
  {
    BrokerKeeps(s, n.broker, e, ch, b');
    NewlyAcceptedFit(s, e);
    BrokerSendsDown(s, n, e, ch, b', down');
    BrokerDownBalance(n, b', down');
    RepliesKept(s, n, e, ch, b');
  }

  lemma ClientAsksKeeps(s: Setting, n: Net, client: string, msg: Msg, ch: BrokerSpec.Choice, n': Net)
    requires Invariant(s, n) && ClientAsking(s, n, client, msg, ch, n')
    ensures Invariant(s, n')
  {
    var e := AskAccounts(s, n, client, msg, ch, n');
    SenderAsksKeeps(s, n, e, ch, n');
  }

  lemma AskAccounts(s: Setting, n: Net, client: string, msg: Msg, ch: BrokerSpec.Choice, n': Net)
    returns (e: BrokerSpec.Event)
    requires BrokerSpec.Invariant(n.broker) && AsksFit(n) && AskBalance(s, n) && UpBalance(n)
    requires ClientAsking(s, n, client, msg, ch, n')
    ensures e.FromClient? && SenderFits(e) && BrokerStep(s, n, e, ch, n'.broker, n'.down)
    ensures n' == n.(broker := n'.broker, down := n'.down, asked := n'.asked)
    ensures AsksFit(n') && AskBalance(s, n') && UpBalance(n')
  {
    e := BrokerSpec.FromClient(AddressText(client), msg);
    RoutableSender(client, msg);
    AskedFit(n, client, msg, n');
    AskBalances(s, n, client, msg, ch, n');
  }

  lemma AskedFit(n: Net, client: string, msg: Msg, n': Net)
    requires AsksFit(n) && Routable(client) && n'.asked == n.asked + [Ask(client, msg)]
    ensures AsksFit(n')
  {
  }

  lemma AskBalances(s: Setting, n: Net, client: string, msg: Msg, ch: BrokerSpec.Choice, n': Net)
    requires BrokerSpec.Invariant(n.broker) && AskBalance(s, n) && UpBalance(n)
    requires ClientAsking(s, n, client, msg, ch, n')
    ensures AskBalance(s, n') && UpBalance(n')
  {
    RoutableSender(client, msg);
    BrokerKeeps(s, n.broker, BrokerSpec.FromClient(AddressText(client), msg), ch, n'.broker);
    AskBalanceKept(s, n, client, msg, n');
    AskUpBalance(s, n, client, msg, ch, n');
  }

  lemma SenderAsksKeeps(s: Setting, n: Net, e: BrokerSpec.Event, ch: BrokerSpec.Choice, n': Net)
    requires Invariant(s, n) && e.FromClient? && SenderFits(e) && BrokerStep(s, n, e, ch, n'.broker, n'.down)
    requires n' == n.(broker := n'.broker, down := n'.down, asked := n'.asked)
    requires AsksFit(n') && AskBalance(s, n') && UpBalance(n')
    ensures Invariant(s, n')
  {
    BrokerStepKeeps(s, n, e, ch, n'.broker, n'.down);
  }

  lemma RoutableSender(client: string, msg: Msg)
    requires Routable(client)
    ensures SenderFits(BrokerSpec.FromClient(AddressText(client), msg)) && NUL !in AddressText(client)
  {
    RoutableCrosses(client);
  }

  lemma AskUpBalance(s: Setting, n: Net, client: string, msg: Msg, ch: BrokerSpec.Choice, n': Net)
    requires UpBalance(n) && ClientAsking(s, n, client, msg, ch, n')
    ensures UpBalance(n')
  {
    var sender := AddressText(client);
    BrokerSpec.StepSendsToClients(n.broker, s.heartbeat, s.local, BrokerSpec.FromClient(sender, msg), ch, n'.broker);
    LocalRepliesTasks(sender, msg, s.local);
    SumAppend(n.broker.toClients, BrokerSpec.LocalReplies(sender, msg, s.local), ClientTasks);
  }

  lemma AskBalanceKept(s: Setting, n: Net, client: string, msg: Msg, n': Net)
    requires AskBalance(s, n) && NUL !in AddressText(client)
    requires n'.broker.accepted ==
             n.broker.accepted + NewlyAccepted(s, BrokerSpec.FromClient(AddressText(client), msg))
    requires n'.asked == n.asked + [Ask(client, msg)]
    ensures AskBalance(s, n')
  {
    assert (n.asked + [Ask(client, msg)])[..|n.asked|] == n.asked;
    var new_ := NewlyAccepted(s, BrokerSpec.FromClient(AddressText(client), msg));
    SumAppend(n.broker.accepted, new_, RequestTasks);
    UnknownAreRemote(AddressText(client), RequestOf(msg).session, RequestOf(msg).actions, s.local);
    if new_ != [] {
      ForwardedTasks(AddressText(client), RequestOf(msg), s.local);
      SumOne(new_[0], RequestTasks);
    }
  }

  // ----- The broker reads

  lemma UpwardFrames(m: Msg)
    requires IsUpward(m)
    ensures |m| > 3 && m[1] == Text("") && m[2] == Text(MDPW_WORKER) && m[1..][3..] == m[3..][1..] == m[4..]
    ensures m[3] == Text(READY) || m[3] == Text(HEARTBEAT) || m[3] == Text(REPLY)
  {
    var w := m[1..];
    assert w[..3] == WorkerSpec.Signal(READY) || w[..3] == WorkerSpec.Signal(HEARTBEAT) ||
           w[..3] == WorkerSpec.Signal(REPLY);
    assert m[1] == w[..3][0] && m[2] == w[..3][1] && m[3] == w[..3][2];
  }

  /** The broker receives a worker's message as it was sent, the name in front perhaps printed. */
  lemma FromUpIs(m: Msg)
    requires m != [] && Crosses(m[1..])
    ensures FromUp(m) == [OffWire(m[0])] + m[1..]
  {
    CrossesUnchanged(m[1..]);
    var wire := [m[0]] + Sent(m[1..]);
    assert wire[1..] == Sent(m[1..]);
    forall i | 0 <= i < |m|
      ensures FromUp(m)[i] == ([OffWire(m[0])] + m[1..])[i]
    {
      if i > 0 {
        assert FromUp(m)[i] == OffWire(wire[1..][i - 1]) == Received(Sent(m[1..]))[i - 1];
      }
    }
  }

  /** A worker's message passes the broker's checks, and is a valid command. */
  lemma UpwardIsRead(m: Msg)
    requires IsUpward(m)
    ensures BrokerSpec.Opened(FromUp(m), MDPW_WORKER) == Some((FrameText(OffWire(m[0])), m[3..])) && m[3..] != []
    ensures !BrokerSpec.CommandOf(m[3..]).Invalid?
  {
    UpwardFrames(m);
    FromUpIs(m);
    assert FromUp(m)[3..] == m[3..];
  }

  /** A reply that is forwarded keeps its tasks. */
  lemma ForwardedUp(m: Msg, b: BrokerSpec.Broker)
    requires IsUpward(m) && |m| > 3 && BrokerSpec.Forwards(b, FrameText(OffWire(m[0])), m[3..])
    ensures UpTasks(m) == ClientTasks(BrokerSpec.ReplyOf(m[3..][1..]))
  {
    UpwardFrames(m);
    ReplyToClientTasks(Unwrap(m[4..]).0, Unwrap(m[4..]).1);
  }

  lemma ReplyToClientTasks(client: string, body: Msg)
    requires NUL !in client
    ensures ClientTasks(BrokerSpec.ReplyToClient(client, body)) == MessageTasks(client, body)
  {
    var m := BrokerSpec.ReplyToClient(client, body);
    if body != [] {
      assert m[|m| - 1] == body[|body| - 1];
    }
  }

  lemma UpWithoutFits(n: Net, at: nat, lostUp: multiset<Task>)
    requires ChannelsFit(n) && at < |n.up|
    ensures ChannelsFit(n.(up := Without(n.up, at), lostUp := lostUp))
  {
  }

  lemma BrokerReadsKeeps(s: Setting, n: Net, at: nat, ch: BrokerSpec.Choice, n': Net)
    requires Invariant(s, n) && BrokerReading(s, n, at, ch, n')
    ensures Invariant(s, n')
  {
    var m := n.up[at];
    UpwardIsRead(m);
    BrokerStepKeeps(s, n, BrokerSpec.FromWorker(FrameText(OffWire(m[0])), m[3..]), ch, n'.broker, n'.down);
    assert n'.broker.accepted == n.broker.accepted;
    UpWithoutFits(n.(broker := n'.broker, down := n'.down), at, n'.lostUp);
    ReadUpBalance(s, n, at, ch, n');
  }

  lemma ReadUpBalance(s: Setting, n: Net, at: nat, ch: BrokerSpec.Choice, n': Net)
    requires UpBalance(n) && at < |n.up| && IsUpward(n.up[at]) && BrokerReading(s, n, at, ch, n')
    ensures UpBalance(n')
  {
    var m := n.up[at];
    UpwardIsRead(m);
    var e := BrokerSpec.FromWorker(FrameText(OffWire(m[0])), m[3..]);
    var sent := BrokerSpec.SentToClients(n.broker, s.local, e);
    BrokerSpec.StepSendsToClients(n.broker, s.heartbeat, s.local, e, ch, n'.broker);
    SumRemove(n.up, at, UpTasks);
    Aside(Sum(n'.up, UpTasks), Sum(n.broker.toClients, ClientTasks), n.lostUp, UpTasks(m));
    if BrokerSpec.Forwards(n.broker, FrameText(OffWire(m[0])), m[3..]) {
      ForwardedUp(m, n.broker);
      SumAppend(n.broker.toClients, sent, ClientTasks);
      SumOne(sent[0], ClientTasks);
    } else {
      assert n.broker.toClients + [] == n.broker.toClients;
    }
  }

  lemma BrokerTicksKeeps(s: Setting, n: Net, ch: BrokerSpec.Choice, n': Net)
    requires Invariant(s, n) && BrokerTicking(s, n, ch, n')
    ensures Invariant(s, n')
  {
    BrokerStepKeeps(s, n, BrokerSpec.Tick, ch, n'.broker, n'.down);
    assert n'.broker.accepted == n.broker.accepted;
  }

  // ----- Steps of a worker

  /** A worker's step adds to what it sent, and takes the tasks of the message that it reads. */
  lemma NextAdds(cfg: WorkerSpec.Config, w: WorkerSpec.State, step: WorkerSpec.Step)
    requires WorkerSpec.Enabled(cfg, w, step)
    ensures var w' := WorkerSpec.Next(cfg, w, step);
            && w'.sent == w.sent + Added(w.sent, w'.sent)
            && w'.taken ==
               w.taken +
               if step.Take? && FrameText(step.msg[2]) == REQUEST then RequestTasks(step.msg[3..]) else multiset{}
  {
    if step.Process? {
      WorkerSpec.ActionsFrame(cfg, w, RequestOf(w.phase.request), step.statuses);
    }
  }

  lemma {:induction false} UpwardTasks(name: string, log: seq<Msg>)
    ensures Sum(Upward(name, log), UpTasks) == Sum(log, ReplyTasks)
    decreases |log|
  {
    if log != [] {
      var front, last := log[..|log| - 1], log[|log| - 1];
      UpwardTasks(name, front);
      assert Upward(name, log)[..|log| - 1] == Upward(name, front);
      assert ([Text(name)] + last)[1..] == last;
    }
  }

  lemma UpwardFits(name: string, log: seq<Msg>)
    requires forall i :: 0 <= i < |log| ==> WorkerSpec.IsWorkerMessage(log[i]) && Crosses(log[i])
    ensures forall i :: 0 <= i < |log| ==> IsUpward(Upward(name, log)[i])
  {
    forall i | 0 <= i < |log|
      ensures IsUpward(Upward(name, log)[i])
    {
      assert Upward(name, log)[i][1..] == log[i];
    }
  }

  lemma ReplyCrosses(client: string, body: Msg)
    requires Crosses(body) && Unchanged(Text(client))
    ensures Crosses(WorkerSpec.ReplyMessage(client, body))
  {
    var m := WorkerSpec.ReplyMessage(client, body);
    forall i | 0 <= i < |m|
      ensures Unchanged(m[i])
    {
      if i >= 5 {
        assert m[i] == body[i - 5];
      }
    }
  }

  predicate QueueCrosses(queue: seq<Entry>) {
    forall i :: 0 <= i < |queue| ==> Unchanged(Text(queue[i].replyTo))
  }

  lemma InsertCrosses(queue: seq<Entry>, e: Entry)
    requires QueueCrosses(queue) && Unchanged(Text(e.replyTo))
    ensures QueueCrosses(Insert(queue, e))
  {
    forall i | 0 <= i < |Insert(queue, e)|
      ensures Unchanged(Text(Insert(queue, e)[i].replyTo))
    {
      InsertAt(queue, e, i);
    }
  }

  lemma {:induction false} ActionsCross(cfg: WorkerSpec.Config, w: WorkerSpec.State, req: Body,
                                        statuses: seq<WorkerSpec.Status>)
    requires req.Request? && |statuses| <= |req.actions| && QueueCrosses(w.queue) && Unchanged(Text(w.replyTo))
    ensures QueueCrosses(WorkerSpec.RanActions(cfg, w, req, statuses).0.queue)
    decreases |statuses|
  {
    if statuses != [] {
      var n := |statuses| - 1;
      var w1 := WorkerSpec.RanActions(cfg, w, req, statuses[..n]).0;
      var a := req.actions[n];
      ActionsCross(cfg, w, req, statuses[..n]);
      WorkerSpec.ActionsFrame(cfg, w, req, statuses[..n]);
      if WorkerSpec.FateOf(cfg, w1.queue, a, statuses[n]).Queued? {
        InsertCrosses(w1.queue, WorkerSpec.NewEntry(cfg, w1, req.session, a, statuses[n].at));
      }
    }
  }

  lemma TopCrosses(w: WorkerSpec.State, status: WorkerSpec.Status)
    requires AddressesFit(w) && w.queue != []
    ensures AddressesFit(WorkerSpec.RanTop(w, status))
  {
    var top := w.queue[0];
    assert PostponedActions.Without(w.queue, 0) == w.queue[1..];
    if status.Postponed? && top.remainingRuns > 0 {
      InsertCrosses(w.queue[1..], Later(top, status.at));
    } else {
      ReplyCrosses(top.replyTo, WorkerSpec.ResultsMessage(top.session, [Done(top.id)]));
    }
  }

  lemma ProcessCrosses(cfg: WorkerSpec.Config, w: WorkerSpec.State, statuses: seq<WorkerSpec.Status>)
    requires AddressesFit(w) && WorkerSpec.Enabled(cfg, w, WorkerSpec.Process(statuses))
    ensures AddressesFit(WorkerSpec.Processed(cfg, w, statuses))
  {
    var req := RequestOf(w.phase.request);
    ActionsCross(cfg, w, req, statuses);
    WorkerSpec.ActionsFrame(cfg, w, req, statuses);
  }

  lemma ReplySentCrosses(w: WorkerSpec.State)
    requires AddressesFit(w)
    ensures AddressesFit(WorkerSpec.Replied(w).(phase := WorkerSpec.Waiting, expectReply := true))
  {
    if w.reply.Some? {
      ReplyCrosses(w.replyTo, w.reply.value);
    }
  }

  lemma SignalCrosses(w: WorkerSpec.State, command: string)
    requires AddressesFit(w) && (command == READY || command == HEARTBEAT)
    ensures AddressesFit(w.(sent := w.sent + [WorkerSpec.Signal(command)]))
  {
    assert Crosses(WorkerSpec.Signal(command));
  }

  lemma TakenCrosses(w: WorkerSpec.State, msg: Msg)
    requires AddressesFit(w) && WorkerSpec.Framed(msg) && Crosses(msg)
    ensures AddressesFit(WorkerSpec.Took(w, msg))
  {
    if |msg| > 3 {
      assert msg[3..][0] == msg[3];
    }
  }

  /** A worker that reads what crosses the channels unchanged sends what does so. */
  lemma NextCrosses(cfg: WorkerSpec.Config, w: WorkerSpec.State, step: WorkerSpec.Step)
    requires AddressesFit(w) && WorkerSpec.Enabled(cfg, w, step) && (step.Take? ==> Crosses(step.msg))
    ensures AddressesFit(WorkerSpec.Next(cfg, w, step))
  {
    match step
    case SendReply => ReplySentCrosses(w);
    case RunTop(_, status) => TopCrosses(w, status);
    case Take(msg) => TakenCrosses(w, msg);
    case Process(statuses) => ProcessCrosses(cfg, w, statuses);
    case Heartbeat => SignalCrosses(w, HEARTBEAT);
    case Connect => SignalCrosses(w, READY);
  }

  lemma MovedWorkersFit(s: Setting, n: Net, i: nat, step: WorkerSpec.Step, name: string)
    requires WorkersFit(s, n) && i < |n.workers| && WorkerSpec.Enabled(s.config, n.workers[i], step)
    ensures WorkersFit(s, WorkerMoved(s, n, i, step, name))
  {
    WorkerSpec.StepKeeps(s.config, n.workers[i], step);
  }

  lemma MovedAddressesFit(s: Setting, n: Net, i: nat, step: WorkerSpec.Step, name: string)
    requires AllAddressesFit(n) && i < |n.workers| == |n.names| && WorkerSpec.Enabled(s.config, n.workers[i], step)
    requires step.Take? ==> Crosses(step.msg)
    ensures AllAddressesFit(WorkerMoved(s, n, i, step, name))
  {
    NextCrosses(s.config, n.workers[i], step);
  }

  lemma AddedFit(cfg: WorkerSpec.Config, w: WorkerSpec.State, step: WorkerSpec.Step)
    requires WorkerSpec.Invariant(cfg, w) && WorkerSpec.Enabled(cfg, w, step)
    ensures var added := Added(w.sent, WorkerSpec.Next(cfg, w, step).sent);
            forall i :: 0 <= i < |added| ==> WorkerSpec.IsWorkerMessage(added[i])
  {
    WorkerSpec.StepKeeps(cfg, w, step);
    SentAllFit(cfg, WorkerSpec.Next(cfg, w, step));
  }

  lemma SentAllFit(cfg: WorkerSpec.Config, w: WorkerSpec.State)
    requires WorkerSpec.Invariant(cfg, w)
    ensures forall i :: 0 <= i < |w.sent| ==> WorkerSpec.IsWorkerMessage(w.sent[i])
  {
  }

  lemma AddedCrosses(cfg: WorkerSpec.Config, w: WorkerSpec.State, step: WorkerSpec.Step)
    requires AddressesFit(w) && WorkerSpec.Enabled(cfg, w, step) && (step.Take? ==> Crosses(step.msg))
    ensures var added := Added(w.sent, WorkerSpec.Next(cfg, w, step).sent);
            forall i :: 0 <= i < |added| ==> Crosses(added[i])
  {
    NextCrosses(cfg, w, step);
    SentAllCross(WorkerSpec.Next(cfg, w, step));
  }

  lemma SentAllCross(w: WorkerSpec.State)
    requires AddressesFit(w)
    ensures forall i :: 0 <= i < |w.sent| ==> Crosses(w.sent[i])
  {
  }

  lemma MoreUpFits(n: Net, more: seq<Msg>)
    requires ChannelsFit(n) && forall i :: 0 <= i < |more| ==> IsUpward(more[i])
    ensures ChannelsFit(n.(up := n.up + more))
  {
  }

  lemma MovedChannelsFit(s: Setting, n: Net, i: nat, step: WorkerSpec.Step, name: string)
    requires i < |n.workers| == |n.names| && WorkerSpec.Invariant(s.config, n.workers[i]) && ChannelsFit(n)
    requires AddressesFit(n.workers[i]) && (step.Take? ==> Crosses(step.msg))
    requires WorkerSpec.Enabled(s.config, n.workers[i], step)
    ensures ChannelsFit(WorkerMoved(s, n, i, step, name))
  {
    var w := n.workers[i];
    var added := Added(w.sent, WorkerSpec.Next(s.config, w, step).sent);
    AddedFit(s.config, w, step);
    AddedCrosses(s.config, w, step);
    UpwardFits(name, added);
    MoreUpFits(n, Upward(name, added));
  }

  lemma MovedUpBalance(s: Setting, n: Net, i: nat, step: WorkerSpec.Step, name: string)
    requires UpBalance(n) && i < |n.workers| == |n.names| && WorkerSpec.Enabled(s.config, n.workers[i], step)
    ensures UpBalance(WorkerMoved(s, n, i, step, name))
  {
    var w := n.workers[i];
    var w' := WorkerSpec.Next(s.config, w, step);
    var added := Added(w.sent, w'.sent);
    NextAdds(s.config, w, step);
    SumAppend(w.sent, added, ReplyTasks);
    SumUpdate(n.workers, i, w', Answered);
    SumAppend(n.up, Upward(name, added), UpTasks);
    UpwardTasks(name, added);
    More(Sum(n.workers[..i] + n.workers[i + 1..], Answered), Sum(w.sent, ReplyTasks), Sum(added, ReplyTasks));
    Aside(Sum(n.up, UpTasks), Sum(n.broker.toClients, ClientTasks), n.lostUp, Sum(added, ReplyTasks));
  }

  lemma More(x: multiset<Task>, y: multiset<Task>, t: multiset<Task>)
    ensures x + (y + t) == (x + y) + t
  {
  }

  lemma MovedTaken(s: Setting, n: Net, i: nat, step: WorkerSpec.Step, name: string)
    requires i < |n.workers| == |n.names| && WorkerSpec.Enabled(s.config, n.workers[i], step)
    ensures Sum(WorkerMoved(s, n, i, step, name).workers, Taken) ==
            Sum(n.workers, Taken) +
            if step.Take? && FrameText(step.msg[2]) == REQUEST then RequestTasks(step.msg[3..]) else multiset{}
  {
    var w := n.workers[i];
    var w' := WorkerSpec.Next(s.config, w, step);
    NextAdds(s.config, w, step);
    SumUpdate(n.workers, i, w', Taken);
    More(Sum(n.workers[..i] + n.workers[i + 1..], Taken), w.taken,
         if step.Take? && FrameText(step.msg[2]) == REQUEST then RequestTasks(step.msg[3..]) else multiset{});
  }

  lemma WorkerMovesKeeps(s: Setting, n: Net, i: nat, step: WorkerSpec.Step, name: string, n': Net)
    requires Invariant(s, n) && WorkerMoving(s, n, i, step, name, n')
    ensures Invariant(s, n')
  {
    MovedWorkersFit(s, n, i, step, name);
    MovedAddressesFit(s, n, i, step, name);
    MovedChannelsFit(s, n, i, step, name);
    MovedUpBalance(s, n, i, step, name);
    MovedTaken(s, n, i, step, name);
    WorkerSpec.NoMore(Sum(n.workers, Taken));
  }

  lemma DownwardTasks(m: Msg)
    requires IsDownward(m)
    ensures FromDown(m) == m[1..] && WorkerSpec.Framed(m[1..])
    ensures DownTasks(m) == if FrameText(m[1..][2]) == REQUEST then RequestTasks(m[1..][3..]) else multiset{}
  {
    CrossesUnchanged(m[1..]);
    assert m[1..][3..] == m[4..];
  }

  lemma DownWithoutFits(n: Net, at: nat, lostDown: multiset<Task>)
    requires ChannelsFit(n) && at < |n.down|
    ensures ChannelsFit(n.(down := Without(n.down, at), lostDown := lostDown))
  {
  }

  lemma WorkerReadsKeeps(s: Setting, n: Net, i: nat, at: nat, n': Net)
    requires Invariant(s, n) && WorkerReading(s, n, i, at, n')
    ensures Invariant(s, n')
  {
    DownwardTasks(n.down[at]);
    var step := WorkerSpec.Take(n.down[at][1..]);
    var moved := WorkerMoved(s, n, i, step, n.names[i]);
    MovedWorkersFit(s, n, i, step, n.names[i]);
    MovedAddressesFit(s, n, i, step, n.names[i]);
    MovedChannelsFit(s, n, i, step, n.names[i]);
    DownWithoutFits(moved, at, n.lostDown);
    MovedUpBalance(s, n, i, step, n.names[i]);
    ReadDownBalance(s, n, i, at);
  }

  lemma ReadDownBalance(s: Setting, n: Net, i: nat, at: nat)
    requires DownBalance(n) && at < |n.down| && IsDownward(n.down[at]) && i < |n.workers| == |n.names|
    requires WorkerSpec.Enabled(s.config, n.workers[i], WorkerSpec.Take(n.down[at][1..]))
    ensures var moved := WorkerMoved(s, n, i, WorkerSpec.Take(n.down[at][1..]), n.names[i]);
            DownBalance(moved.(down := Without(n.down, at)))
  {
    var m := n.down[at];
    DownwardTasks(m);
    SumRemove(n.down, at, DownTasks);
    MovedTaken(s, n, i, WorkerSpec.Take(m[1..]), n.names[i]);
    Aside(Sum(Without(n.down, at), DownTasks), Sum(n.workers, Taken), n.lostDown, DownTasks(m));
  }

  lemma LosesDownKeeps(s: Setting, n: Net, at: nat, n': Net)
    requires Invariant(s, n) && Step(s, n, LosesDown(at), n')
    ensures Invariant(s, n')
  {
    DownWithoutFits(n, at, n'.lostDown);
    LostDownBalance(n, at);
  }

  lemma LostDownBalance(n: Net, at: nat)
    requires DownBalance(n) && at < |n.down|
    ensures DownBalance(n.(down := Without(n.down, at), lostDown := n.lostDown + DownTasks(n.down[at])))
  {
    SumRemove(n.down, at, DownTasks);
    Aside(Sum(Without(n.down, at), DownTasks), Sum(n.workers, Taken), n.lostDown, DownTasks(n.down[at]));
  }

  lemma LosesUpKeeps(s: Setting, n: Net, at: nat, n': Net)
    requires Invariant(s, n) && Step(s, n, LosesUp(at), n')
    ensures Invariant(s, n')
  {
    UpWithoutFits(n, at, n'.lostUp);
    LostUpBalance(n, at);
  }

  lemma LostUpBalance(n: Net, at: nat)
    requires UpBalance(n) && at < |n.up|
    ensures UpBalance(n.(up := Without(n.up, at), lostUp := n.lostUp + UpTasks(n.up[at])))
  {
    SumRemove(n.up, at, UpTasks);
    Aside(Sum(Without(n.up, at), UpTasks), Sum(n.broker.toClients, ClientTasks), n.lostUp, UpTasks(n.up[at]));
  }

  // ----- Runs

  lemma StepKeeps(s: Setting, n: Net, e: Event, n': Net)
    requires Invariant(s, n) && Step(s, n, e, n')
    ensures Invariant(s, n')
  {
    match e
    case ClientAsks(client, msg, ch) => ClientAsksKeeps(s, n, client, msg, ch, n');
    case BrokerReads(at, ch) => BrokerReadsKeeps(s, n, at, ch, n');
    case BrokerTicks(ch) => BrokerTicksKeeps(s, n, ch, n');
    case WorkerReads(i, at) => WorkerReadsKeeps(s, n, i, at, n');
    case WorkerMoves(i, step, name) => WorkerMovesKeeps(s, n, i, step, name, n');
    case LosesDown(at) => LosesDownKeeps(s, n, at, n');
    case LosesUp(at) => LosesUpKeeps(s, n, at, n');
  }

  lemma {:induction false} SumOfEmpty<T>(xs: seq<T>, f: T -> multiset<Task>)
    requires forall i :: 0 <= i < |xs| ==> f(xs[i]) == multiset{}
    ensures Sum(xs, f) == multiset{}
    decreases |xs|
  {
    if xs != [] {
      SumOfEmpty(xs[..|xs| - 1], f);
    }
  }

  lemma InitialFits(s: Setting, n: Net)
    requires IsInitial(n)
    ensures Invariant(s, n)
  {
    forall i | 0 <= i < |n.workers|
      ensures Taken(n.workers[i]) == multiset{} && Answered(n.workers[i]) == multiset{}
    {
    }
    SumOfEmpty(n.workers, Taken);
    SumOfEmpty(n.workers, Answered);
    WorkerSpec.InitialFits(s.config);
    assert BrokerSpec.Messages([]) == [];
  }

  lemma {:induction false} RunKeeps(s: Setting, ns: seq<Net>, es: seq<Event>)
    requires IsRun(s, ns, es)
    ensures Invariant(s, ns[|es|])
    decreases |es|
  {
    if es == [] {
      InitialFits(s, ns[0]);
    } else {
      var k := |es| - 1;
      var n := ns[k];
      RunKeeps(s, ns[..k + 1], es[..k]);
      assert ns[..k + 1][k] == n;
      StepKeeps(s, n, es[k], ns[k + 1]);
    }
  }

  // ----- What every run promises

  function Delivered(n: Net): multiset<Task> {
    Sum(n.broker.toClients, ClientTasks)
  }

  function InHand(w: WorkerSpec.State): multiset<Task> {
    Sum(w.queue, WorkerSpec.EntryTask) + WorkerSpec.Pending(w) + w.dropped + w.cutOff + w.unsent +
      WorkerSpec.InProcess(w)
  }

  lemma {:induction false} WorkersBalance(s: Setting, workers: seq<WorkerSpec.State>)
    requires forall i :: 0 <= i < |workers| ==> WorkerSpec.Invariant(s.config, workers[i])
    ensures Sum(workers, Taken) == Sum(workers, Answered) + Sum(workers, InHand)
    decreases |workers|
  {
    if workers != [] {
      var front, last := workers[..|workers| - 1], workers[|workers| - 1];
      WorkersBalance(s, front);
      OneBalance(s.config, last);
      Pairwise(Sum(front, Answered), Sum(front, InHand), Answered(last), InHand(last));
    }
  }

  lemma OneBalance(cfg: WorkerSpec.Config, w: WorkerSpec.State)
    requires WorkerSpec.Conserved(w)
    ensures w.taken == Answered(w) + InHand(w)
  {
  }

  lemma Pairwise(a: multiset<Task>, b: multiset<Task>, c: multiset<Task>, d: multiset<Task>)
    ensures (a + b) + (c + d) == (a + c) + (b + d)
  {
  }

  /** In every run, at every moment, everything that clients asked of workers is accounted for exactly:
      delivered, on its way up, with a worker, on its way down, waiting at the broker, or lost on the
      way. */
  lemma EverythingIsAccountedFor(s: Setting, ns: seq<Net>, es: seq<Event>)
    requires IsRun(s, ns, es)
    ensures var n := ns[|es|];
            AskedTasks(n.asked, s.local) ==
            Delivered(n) + Sum(n.up, UpTasks) + Sum(n.workers, InHand) + Sum(n.down, DownTasks) +
            Sum(BrokerSpec.Messages(n.broker.requests), RequestTasks) + n.lostUp + n.lostDown
  {
    RunKeeps(s, ns, es);
    var n := ns[|es|];
    SumAppend(BrokerSpec.RequestsIn(n.broker.toWorkers), BrokerSpec.Messages(n.broker.requests), RequestTasks);
    RequestsInTasks(n.broker.toWorkers);
    WorkersBalance(s, n.workers);
    Total(Delivered(n), Sum(n.up, UpTasks), Sum(n.workers, InHand), Sum(n.down, DownTasks),
          Sum(BrokerSpec.Messages(n.broker.requests), RequestTasks), n.lostUp, n.lostDown);
  }

  lemma Total(delivered: multiset<Task>, up: multiset<Task>, inHand: multiset<Task>, down: multiset<Task>,
              waiting: multiset<Task>, lostUp: multiset<Task>, lostDown: multiset<Task>)
    ensures (down + ((up + delivered + lostUp) + inHand) + lostDown) + waiting ==
            delivered + up + inHand + down + waiting + lostUp + lostDown
  {
  }

  /** The result at a place of a message is that of an action, not local to the broker, which a client
      asked for in that session; and this client is the one to which the message leaves on the wire. */
  ghost predicate WasAsked(asked: seq<Ask>, local: set<string>, m: Msg, i: int)
    requires ReportsAction(m, i)
  {
    exists k, j :: 0 <= k < |asked| && AsksFor(asked[k], local, j, TaskAt(m, i)) &&
      OnWire(m[0]) == Text(asked[k].client)
  }

  predicate AsksFor(a: Ask, local: set<string>, j: int, t: Task) {
    var req := RequestOf(a.msg);
    && 0 <= j < |req.actions| && AddressText(a.client) == t.client && req.session == t.session
    && req.actions[j].id == t.id && req.actions[j].name !in local
  }

  lemma {:induction false} RemoteIsAt(client: string, session: string, actions: seq<Action>, local: set<string>,
                                      t: Task) returns (j: nat)
    requires t in RemoteTasks(client, session, actions, local)
    ensures j < |actions| && t == Task(client, session, actions[j].id) && actions[j].name !in local
    decreases |actions|
  {
    var n := |actions| - 1;
    if actions[n].name !in local && t == Task(client, session, actions[n].id) {
      j := n;
    } else {
      j := RemoteIsAt(client, session, actions[..n], local, t);
    }
  }

  lemma {:induction false} AskedWasAsked(asked: seq<Ask>, local: set<string>, t: Task) returns (k: nat, j: nat)
    requires t in AskedTasks(asked, local)
    ensures k < |asked| && AsksFor(asked[k], local, j, t)
    decreases |asked|
  {
    var last := asked[|asked| - 1];
    if t in AskTasks(last, local) {
      k := |asked| - 1;
      j := RemoteIsAt(AddressText(last.client), RequestOf(last.msg).session, RequestOf(last.msg).actions, local, t);
    } else {
      k, j := AskedWasAsked(asked[..|asked| - 1], local, t);
    }
  }

  lemma {:induction false} InSum(log: seq<Msg>, k: nat, t: Task)
    requires k < |log| && t in ClientTasks(log[k])
    ensures t in Sum(log, ClientTasks)
    decreases |log|
  {
    if k < |log| - 1 {
      InSum(log[..|log| - 1], k, t);
    }
  }

  lemma {:induction false} DoneIsTask(client: string, session: string, results: seq<Result>, i: nat)
    requires i < |results| && Reports(results[i])
    ensures Task(client, session, results[i].id) in DoneTasks(client, session, results)
    decreases |results|
  {
    if i < |results| - 1 {
      DoneIsTask(client, session, results[..|results| - 1], i);
    }
  }

  /** End to end: in every run, every result of an action, immediate, put off or rejected, that is sent to a
      client carries the session and the id of an action that this very client asked for; and for each client,
      session and id no more results are sent than were asked for. */
  lemma ResultsReachTheirClient(s: Setting, ns: seq<Net>, es: seq<Event>)
    requires IsRun(s, ns, es)
    ensures var n := ns[|es|];
            forall k, i :: 0 <= k < |n.broker.toClients| && ReportsAction(n.broker.toClients[k], i) ==>
              WasAsked(n.asked, s.local, n.broker.toClients[k], i)
    ensures var n := ns[|es|]; Delivered(n) <= AskedTasks(n.asked, s.local)
  {
    var n := ns[|es|];
    EverythingIsAccountedFor(s, ns, es);
    RunRepliesFit(s, ns, es);
    forall k, i | 0 <= k < |n.broker.toClients| && ReportsAction(n.broker.toClients[k], i)
      ensures WasAsked(n.asked, s.local, n.broker.toClients[k], i)
    {
      ResultWasAsked(s, n, k, i);
    }
  }

  lemma RunRepliesFit(s: Setting, ns: seq<Net>, es: seq<Event>)
    requires IsRun(s, ns, es)
    ensures var n := ns[|es|]; AsksFit(n) && RepliesFit(n)
  {
    RunKeeps(s, ns, es);
  }

  lemma ResultWasAsked(s: Setting, n: Net, k: nat, i: nat)
    requires AsksFit(n) && RepliesFit(n) && Delivered(n) <= AskedTasks(n.asked, s.local)
    requires k < |n.broker.toClients| && ReportsAction(n.broker.toClients[k], i)
    ensures WasAsked(n.asked, s.local, n.broker.toClients[k], i)
  {
    var m := n.broker.toClients[k];
    DoneIsTask(FrameText(m[0]), m[|m| - 1].body.session, m[|m| - 1].body.results, i);
    InSum(n.broker.toClients, k, TaskAt(m, i));
    var a, j := AskedWasAsked(n.asked, s.local, TaskAt(m, i));
    assert IsAddressed(m) && AsksFor(n.asked[a], s.local, j, TaskAt(m, i));
    RoutableCrosses(n.asked[a].client);
  }

  /** The result at a place of a message to a client answers an action with its id: run, or not known. */
  predicate ReportsAction(m: Msg, i: int) {
    && m != [] && m[|m| - 1].Json? && m[|m| - 1].body.Results?
    && 0 <= i < |m[|m| - 1].body.results| && Reports(m[|m| - 1].body.results[i])
  }

  function TaskAt(m: Msg, i: int): Task
    requires ReportsAction(m, i)
  {
    Task(FrameText(m[0]), m[|m| - 1].body.session, m[|m| - 1].body.results[i].id)
  }

  /** In every run no handler's assertion fails: what is on its way to a worker has the frames that the
      worker asserts, and what is on its way to the broker has the broker's header and a valid command. */
  lemma MessagesAreAccepted(s: Setting, ns: seq<Net>, es: seq<Event>)
    requires IsRun(s, ns, es)
    ensures var n := ns[|es|]; forall k :: 0 <= k < |n.down| ==> WorkerSpec.Framed(FromDown(n.down[k]))
    ensures var n := ns[|es|];
            forall k :: 0 <= k < |n.up| ==>
              var letter := BrokerSpec.Opened(FromUp(n.up[k]), MDPW_WORKER);
              letter.Some? && letter.value.1 != [] && !BrokerSpec.CommandOf(letter.value.1).Invalid?
  {
    RunKeeps(s, ns, es);
    var n := ns[|es|];
    forall k | 0 <= k < |n.down|
      ensures WorkerSpec.Framed(FromDown(n.down[k]))
    {
      DownwardTasks(n.down[k]);
    }
    forall k | 0 <= k < |n.up|
      ensures var letter := BrokerSpec.Opened(FromUp(n.up[k]), MDPW_WORKER);
              letter.Some? && letter.value.1 != [] && !BrokerSpec.CommandOf(letter.value.1).Invalid?
    {
      UpwardIsRead(n.up[k]);
    }
  }
}
