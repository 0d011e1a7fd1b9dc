/** Accounts of tasks: who asked for what, wherever it is written down. */
module Tasks {
  import opened MdpMessage

  /** An action that a client asked for in a session. */
  datatype Task = Task(client: string, session: string, id: string)

  function Sum<T>(s: seq<T>, f: T -> multiset<Task>): multiset<Task> {
    if s == [] then multiset{} else Sum(s[..|s| - 1], f) + f(s[|s| - 1])
  }

  lemma {:induction false} SumAppend<T>(xs: seq<T>, ys: seq<T>, f: T -> multiset<Task>)
    ensures Sum(xs + ys, f) == Sum(xs, f) + Sum(ys, f)
    decreases |ys|
  {
    if ys == [] {
      assert xs + ys == xs;
    } else {
      var n := |ys| - 1;
      SumAppend(xs, ys[..n], f);
      assert (xs + ys)[..|xs + ys| - 1] == xs + ys[..n];
    }
  }

  lemma SumOne<T>(x: T, f: T -> multiset<Task>)
    ensures Sum([x], f) == f(x)
  {
    assert [x][..0] == [];
  }

  lemma SumMiddle<T>(xs: seq<T>, x: T, ys: seq<T>, f: T -> multiset<Task>)
    ensures Sum(xs + [x] + ys, f) == Sum(xs + ys, f) + f(x)
  {
    SumOne(x, f);
    SumAppend(xs + [x], ys, f);
    SumAppend(xs, [x], f);
    SumAppend(xs, ys, f);
  }

  lemma Parts<T>(s: seq<T>, i: nat)
    ensures i <= |s| ==> s[..i] + s[i..] == s
    ensures i < |s| ==> s[..i] + [s[i]] + s[i + 1..] == s
  {
  }

  /** Putting an element in, or taking it out, adds or takes away its tasks and no others. */
  lemma SumSplice<T>(s: seq<T>, i: nat, x: T, f: T -> multiset<Task>)
    requires i <= |s|
    ensures Sum(s[..i] + [x] + s[i..], f) == Sum(s, f) + f(x)
  {
    Parts(s, i);
    SumMiddle(s[..i], x, s[i..], f);
  }

  lemma SumUpdate<T>(s: seq<T>, i: nat, x: T, f: T -> multiset<Task>)
    requires i < |s|
    ensures Sum(s[i := x], f) == Sum(s[..i] + s[i + 1..], f) + f(x)
    ensures Sum(s, f) == Sum(s[..i] + s[i + 1..], f) + f(s[i])
  {
    Parts(s, i);
    Parts(s[i := x], i);
    SumMiddle(s[..i], x, s[i + 1..], f);
    SumMiddle(s[..i], s[i], s[i + 1..], f);
  }

  lemma SumRemove<T>(s: seq<T>, i: nat, f: T -> multiset<Task>)
    requires i < |s|
    ensures Sum(s, f) == Sum(s[..i] + s[i + 1..], f) + f(s[i])
  {
    Parts(s, i);
    SumMiddle(s[..i], s[i], s[i + 1..], f);
  }

  /** The tasks of a client's actions, one for each. */
  function ActionTasks(client: string, session: string, actions: seq<Action>): multiset<Task> {
    if actions == [] then multiset{}
    else multiset{Task(client, session, actions[0].id)} + ActionTasks(client, session, actions[1..])
  }

  /** The tasks that the results answer. */
  function DoneTasks(client: string, session: string, results: seq<Result>): multiset<Task> {
    if results == [] then multiset{}
    else
      var last := results[|results| - 1];
      DoneTasks(client, session, results[..|results| - 1]) +
      if Reports(last) then multiset{Task(client, session, last.id)} else multiset{}
  }

  lemma DoneTasksSnoc(client: string, session: string, results: seq<Result>, r: Result)
    ensures DoneTasks(client, session, results + [r]) ==
            DoneTasks(client, session, results) +
            if Reports(r) then multiset{Task(client, session, r.id)} else multiset{}
  {
    assert (results + [r])[..|results|] == results;
  }

  lemma {:induction false} TaskOfAction(client: string, session: string, actions: seq<Action>, t: Task)
    ensures t in ActionTasks(client, session, actions) <==>
            t.client == client && t.session == session && exists i :: 0 <= i < |actions| && actions[i].id == t.id
  {
    if actions != [] {
      TaskOfAction(client, session, actions[1..], t);
      if t in ActionTasks(client, session, actions[1..]) {
        var i :| 0 <= i < |actions[1..]| && actions[1..][i].id == t.id;
        assert actions[i + 1].id == t.id;
      } else if exists i :: 0 <= i < |actions| && actions[i].id == t.id {
        var i :| 0 <= i < |actions| && actions[i].id == t.id;
        assert i > 0 ==> actions[1..][i - 1].id == t.id;
      }
    }
  }

  /** The tasks in a message body for a client. */
  function MessageTasks(client: string, msg: Msg): multiset<Task> {
    if msg != [] && msg[|msg| - 1].Json? && msg[|msg| - 1].body.Results?
    then DoneTasks(client, msg[|msg| - 1].body.session, msg[|msg| - 1].body.results)
    else multiset{}
  }

  /** What a worker's message to the broker reports done. */
  function ReplyTasks(m: Msg): multiset<Task> {
    if |m| >= 3 && FrameText(m[2]) == REPLY then MessageTasks(Unwrap(m[3..]).0, Unwrap(m[3..]).1) else multiset{}
  }

  /** What the message inside a REQUEST asks for. */
  function RequestTasks(m: Msg): multiset<Task> {
    var (client, body) := Unwrap(m);
    ActionTasks(client, RequestOf(body).session, RequestOf(body).actions)
  }
}

/** What a worker's handlers do to its state, and what every run of them keeps. */
module WorkerSpec {
  import opened Wrappers
  import opened Selections
  import opened MdpMessage
  import opened Tasks
  import opened PostponedActions

  /** The names that the dispatcher knows, and how often an action may be put off again. */
  datatype Config = Config(registered: set<string>, retries: nat)

  /** What an action returned; put off, with the time that the handler reads for it. */
  datatype Status = Succeeded | Failed | Postponed(at: int)

  datatype Phase = Returning | Waiting | Handling(request: Msg)

  /** A worker: its fields, everything it has sent, and the account of its tasks.  The account holds
      every task of the requests that it took; those that it dropped since their id was queued; those
      cut off, behind an action that broke their request off; and those answered to no client.  Runs
      counts how often a queued action has run since it was queued. */
  datatype State = State(
    queue: seq<Entry>, phase: Phase, replyTo: string, reply: Option<Msg>, replyFor: string, expectReply: bool,
    sent: seq<Msg>, replied: nat,
    taken: multiset<Task>, dropped: multiset<Task>, cutOff: multiset<Task>, unsent: multiset<Task>,
    runs: map<string, nat>)

  const INITIAL :=
    State([], Returning, "", None, "", false, [], 0, multiset{}, multiset{}, multiset{}, multiset{}, map[])

  function Signal(command: string): Msg {
    [Text(""), Text(MDPW_WORKER), Text(command)]
  }

  function ReplyMessage(client: string, body: Msg): Msg {
    Signal(REPLY) + Wrap(body, client, "")
  }

  function ResultsMessage(session: string, results: seq<Result>): Msg {
    [Json(Results(session, results))]
  }

  /** The answer to an action that was put off. */
  function AnswerMessage(e: Entry): Msg {
    ReplyMessage(e.replyTo, ResultsMessage(e.session, [Done(e.id)]))
  }

  /** What the handler of messages asserts about a message from the broker. */
  predicate Framed(m: Msg) {
    && |m| >= 3 && m[0] == Text("") && m[1] == Text(MDPW_WORKER)
    && (FrameText(m[2]) == REQUEST ==> Unwrap(m[3..]).1 != [])
  }

  datatype Step =
    | SendReply
    | RunTop(now: int, status: Status)
    | Take(msg: Msg)
    | Process(statuses: seq<Status>)
    | Heartbeat
    | Connect

  function RunCount(w: State, id: string): nat {
    if id in w.runs then w.runs[id] else 0
  }

  predicate Enabled(cfg: Config, w: State, step: Step) {
    match step
    case SendReply => w.phase.Returning?
    case RunTop(now, status) =>
      && w.phase.Waiting? && w.queue != [] && w.queue[0].expiration <= now
      && w.queue[0].action.name in cfg.registered && (status.Postponed? ==> now <= status.at)
    case Take(msg) => w.phase.Waiting? && Framed(msg)
    case Process(statuses) =>
      && w.phase.Handling?
      && var actions := RequestOf(w.phase.request).actions;
         |statuses| <= |actions| && (|statuses| < |actions| ==> actions[|statuses|].name in cfg.registered)
    case Heartbeat => w.phase.Waiting?
    case Connect => !w.phase.Handling?
  }

  function Next(cfg: Config, w: State, step: Step): State
    requires Enabled(cfg, w, step)
  {
    match step
    case SendReply => Replied(w).(phase := Waiting, expectReply := true)
    case RunTop(now, status) => RanTop(w, status)
    case Take(msg) => Took(w, msg)
    case Process(statuses) => Processed(cfg, w, statuses)
    case Heartbeat => w.(sent := w.sent + [Signal(HEARTBEAT)])
    case Connect => w.(sent := w.sent + [Signal(READY)])
  }

  function Replied(w: State): State {
    if w.reply.Some? && w.replyTo != ""
    then
      w.(sent := w.sent + [ReplyMessage(w.replyTo, w.reply.value)], replied := w.replied + 1,
         replyTo := "", reply := None)
    else w
  }

  /** The action due first runs again: it is put off once more, or it is answered and removed. */
  function RanTop(w: State, status: Status): State
    requires w.queue != []
  {
    var top := w.queue[0];
    var w' := w.(runs := w.runs[top.id := RunCount(w, top.id) + 1]);
    if status.Postponed? && top.remainingRuns > 0 then w'.(queue := PutOff(w.queue, 0, status.at))
    else
      w'.(queue := Without(w.queue, 0), replied := w.replied + 1,
          sent := w.sent + [AnswerMessage(top)])
  }

  function Took(w: State, msg: Msg): State
    requires Framed(msg)
  {
    var command := FrameText(msg[2]);
    if command == REQUEST then
      var (client, request) := Unwrap(msg[3..]);
      w.(phase := Handling(request), replyTo := client, taken := w.taken + RequestTasks(msg[3..]))
    else w
  }

  function TaskFor(w: State, session: string, a: Action): multiset<Task> {
    multiset{Task(w.replyTo, session, a.id)}
  }

  function NewEntry(cfg: Config, w: State, session: string, a: Action, at: int): Entry {
    Entry(a, w.replyTo, a.id, cfg.retries % 256, at, session)
  }

  /** What becomes of an action of a request. */
  datatype Fate = Refused | Answered | Dropped | Queued

  function FateOf(cfg: Config, queue: seq<Entry>, a: Action, status: Status): Fate {
    if a.name !in cfg.registered then Refused
    else if !status.Postponed? then Answered
    else if HasId(queue, a.id) then Dropped
    else Queued
  }

  /** One action of a request, and what it adds to the results. */
  function RanAction(cfg: Config, w: State, session: string, a: Action, status: Status): (State, seq<Result>) {
    match FateOf(cfg, w.queue, a, status)
    case Refused => (w, [Rejected(a.id)])
    case Answered => (w, [Done(a.id)])
    case Dropped => (w.(dropped := w.dropped + TaskFor(w, session, a)), [])
    case Queued =>
      var queue := Insert(w.queue, NewEntry(cfg, w, session, a, status.at));
      (w.(queue := queue, runs := w.runs[a.id := 0]), [])
  }

  /** The first actions of a request, as many as there are statuses. */
  function RanActions(cfg: Config, w: State, req: Body, statuses: seq<Status>): (State, seq<Result>)
    requires req.Request? && |statuses| <= |req.actions|
    decreases |statuses|
  {
    if statuses == [] then (w, [])
    else
      var n := |statuses| - 1;
      var (w1, results) := RanActions(cfg, w, req, statuses[..n]);
      var (w2, more) := RanAction(cfg, w1, req.session, req.actions[n], statuses[n]);
      (w2, results + more)
  }

  /** The result that an action of a request has, unless it is put off. */
  function ResultFor(cfg: Config, a: Action): Result {
    if a.name in cfg.registered then Done(a.id) else Rejected(a.id)
  }

  /** The results are those of the actions that are not put off, in their order. */
  lemma {:induction false} ResultsAreInOrder(cfg: Config, w: State, req: Body, statuses: seq<Status>)
    returns (at: seq<nat>)
    requires req.Request? && |statuses| <= |req.actions|
    ensures Ascending(at) && |RanActions(cfg, w, req, statuses).1| == |at|
    ensures forall i :: 0 <= i < |at| ==>
              at[i] < |statuses| && RanActions(cfg, w, req, statuses).1[i] == ResultFor(cfg, req.actions[at[i]])
    ensures forall j: nat ::
              j in at <==> j < |statuses| && !(req.actions[j].name in cfg.registered && statuses[j].Postponed?)
    decreases |statuses|
  {
    at := [];
    if statuses != [] {
      var n := |statuses| - 1;
      at := ResultsAreInOrder(cfg, w, req, statuses[..n]);
      if !(req.actions[n].name in cfg.registered && statuses[n].Postponed?) {
        at := at + [n];
      }
    }
  }

  /** A request that breaks off, in its text or at an action, is reported malformed after the results
      so far. */
  function Processed(cfg: Config, w: State, statuses: seq<Status>): State
    requires w.phase.Handling? && |statuses| <= |RequestOf(w.phase.request).actions|
  {
    var req := RequestOf(w.phase.request);
    var (w1, results) := RanActions(cfg, w, req, statuses);
    var brokeOff := |statuses| < |req.actions| || !req.wellFormed;
    Concluded(w1, req, req.actions[|statuses|..], results + if brokeOff then [Malformed("unknown")] else [])
  }

  function Concluded(w: State, req: Body, rest: seq<Action>, results: seq<Result>): State
    requires req.Request?
  {
    var w' := w.(phase := Returning, cutOff := w.cutOff + ActionTasks(w.replyTo, req.session, rest));
    if results == [] then w'.(expectReply := false, replyTo := "")
    else
      w'.(reply := Some(ResultsMessage(req.session, results)), replyFor := w.replyTo, unsent := w.unsent + Pending(w))
  }

  // ----- What every step keeps

  function EntryTask(e: Entry): multiset<Task> {
    multiset{Task(e.replyTo, e.session, e.id)}
  }

  function Pending(w: State): multiset<Task> {
    if w.reply.Some? then MessageTasks(w.replyFor, w.reply.value) else multiset{}
  }

  function InProcess(w: State): multiset<Task> {
    if w.phase.Handling?
    then ActionTasks(w.replyTo, RequestOf(w.phase.request).session, RequestOf(w.phase.request).actions)
    else multiset{}
  }

  /** What is answered, put off, or in a reply not sent yet. */
  function Kept(w: State): multiset<Task> {
    Sum(w.sent, ReplyTasks) + Sum(w.queue, EntryTask) + Pending(w)
  }

  /** All that the worker has dealt with, all but the request that it is about to process. */
  function Settled(w: State): multiset<Task> {
    Kept(w) + w.dropped + w.cutOff + w.unsent
  }

  /** Every task taken is in exactly one place. */
  ghost predicate Conserved(w: State) {
    w.taken == Settled(w) + InProcess(w)
  }

  ghost predicate HasTwins(tasks: multiset<Task>) {
    exists t, u :: multiset{t, u} <= tasks && t.id == u.id
  }

  ghost predicate EntryFits(cfg: Config, runs: map<string, nat>, e: Entry) {
    && e.id == e.action.id && e.action.name in cfg.registered && NUL !in e.replyTo
    && e.id in runs && runs[e.id] + e.remainingRuns == cfg.retries % 256
  }

  ghost predicate QueueFits(cfg: Config, queue: seq<Entry>, runs: map<string, nat>) {
    && IsQueue(queue)
    && (forall i :: 0 <= i < |queue| ==> EntryFits(cfg, runs, queue[i]))
    && (forall id :: id in runs ==> runs[id] <= cfg.retries % 256 + 1)
  }

  /** A reply is there when it is expected; and unless it is about to be sent, its client is no one. */
  ghost predicate ReplyFits(w: State) {
    && NUL !in w.replyTo
    && (w.phase.Returning? ==> w.reply.Some? || !w.expectReply)
    && (w.reply.Some? ==> w.replyFor == if w.phase.Returning? then w.replyTo else "")
  }

  /** Whatever a worker sends is a READY, a HEARTBEAT or a REPLY. */
  ghost predicate IsWorkerMessage(m: Msg) {
    m == Signal(READY) || m == Signal(HEARTBEAT) || IsReply(m)
  }

  predicate IsReply(m: Msg) {
    |m| > 3 && m[..3] == Signal(REPLY)
  }

  function CountReplies(log: seq<Msg>): nat {
    if log == [] then 0 else CountReplies(log[..|log| - 1]) + if IsReply(log[|log| - 1]) then 1 else 0
  }

  ghost predicate SentFits(sent: seq<Msg>, replied: nat) {
    replied == CountReplies(sent) && forall i :: 0 <= i < |sent| ==> IsWorkerMessage(sent[i])
  }

  /** Only an action whose id came twice is dropped, and only an answer to no one is not sent. */
  ghost predicate LossesFit(dropped: multiset<Task>, unsent: multiset<Task>, taken: multiset<Task>) {
    && (dropped != multiset{} ==> HasTwins(taken))
    && (forall t :: t in unsent ==> t.client == "")
  }

  ghost predicate Invariant(cfg: Config, w: State) {
    Fits(cfg, w) && Conserved(w)
  }

  ghost predicate Fits(cfg: Config, w: State) {
    && QueueFits(cfg, w.queue, w.runs) && ReplyFits(w) && SentFits(w.sent, w.replied)
    && LossesFit(w.dropped, w.unsent, w.taken)
  }

  lemma SentOneMore(sent: seq<Msg>, replied: nat, m: Msg)
    requires SentFits(sent, replied) && IsWorkerMessage(m)
    ensures SentFits(sent + [m], replied + if IsReply(m) then 1 else 0)
    ensures Sum(sent + [m], ReplyTasks) == Sum(sent, ReplyTasks) + ReplyTasks(m)
  {
    assert (sent + [m])[..|sent|] == sent;
  }

  lemma ReplyMessageTasks(client: string, body: Msg)
    requires NUL !in client
    ensures IsReply(ReplyMessage(client, body)) && ReplyTasks(ReplyMessage(client, body)) == MessageTasks(client, body)
  {
    UnwrapWrapIff(body, client);
    assert ReplyMessage(client, body)[3..] == Wrap(body, client, "");
  }

  lemma SignalTasks(command: string)
    requires command == READY || command == HEARTBEAT
    ensures IsWorkerMessage(Signal(command)) && !IsReply(Signal(command)) && ReplyTasks(Signal(command)) == multiset{}
  {
    assert FrameText(Text(command)) == command;
  }

  lemma SignalKeeps(cfg: Config, w: State, command: string)
    requires Invariant(cfg, w) && (command == READY || command == HEARTBEAT)
    ensures Invariant(cfg, w.(sent := w.sent + [Signal(command)]))
  {
    SignalTasks(command);
    SentOneMore(w.sent, w.replied, Signal(command));
    SignalStays(cfg, w, w.sent + [Signal(command)]);
  }

  lemma SignalStays(cfg: Config, w: State, sent: seq<Msg>)
    requires Invariant(cfg, w) && SentFits(sent, w.replied) && Sum(sent, ReplyTasks) == Sum(w.sent, ReplyTasks)
    ensures Invariant(cfg, w.(sent := sent))
  {
  }

  lemma ReplyMoves(w: State)
    requires SentFits(w.sent, w.replied) && w.reply.Some? && NUL !in w.replyTo && w.replyFor == w.replyTo
    ensures var m := ReplyMessage(w.replyTo, w.reply.value);
            SentFits(w.sent + [m], w.replied + 1) &&
              Sum(w.sent + [m], ReplyTasks) == Sum(w.sent, ReplyTasks) + Pending(w)
  {
    ReplyMessageTasks(w.replyTo, w.reply.value);
    SentOneMore(w.sent, w.replied, ReplyMessage(w.replyTo, w.reply.value));
  }

  lemma RepliedFits(cfg: Config, w: State)
    requires Fits(cfg, w) && w.phase.Returning?
    ensures Fits(cfg, Replied(w).(phase := Waiting, expectReply := true))
  {
    if w.reply.Some? && w.replyTo != "" {
      ReplyMoves(w);
    }
  }

  lemma RepliedConserves(w: State)
    requires Conserved(w) && ReplyFits(w) && SentFits(w.sent, w.replied) && w.phase.Returning?
    ensures Conserved(Replied(w).(phase := Waiting, expectReply := true))
  {
    if w.reply.Some? && w.replyTo != "" {
      ReplyMoves(w);
    }
  }

  lemma TwinsStay(dropped: multiset<Task>, unsent: multiset<Task>, taken: multiset<Task>, more: multiset<Task>)
    requires LossesFit(dropped, unsent, taken)
    ensures LossesFit(dropped, unsent, taken + more)
  {
    if HasTwins(taken) {
      var t, u :| multiset{t, u} <= taken && t.id == u.id;
      assert multiset{t, u} <= taken + more;
    }
  }

  lemma TakeKeeps(cfg: Config, w: State, msg: Msg)
    requires Invariant(cfg, w) && w.phase.Waiting? && Framed(msg)
    ensures Invariant(cfg, Took(w, msg))
  {
    if FrameText(msg[2]) == REQUEST {
      TwinsStay(w.dropped, w.unsent, w.taken, RequestTasks(msg[3..]));
    }
  }

  // ----- The queue

  lemma WithoutTopFits(cfg: Config, queue: seq<Entry>, runs: map<string, nat>, n: nat)
    requires QueueFits(cfg, queue, runs) && queue != [] && n <= cfg.retries % 256 + 1
    ensures QueueFits(cfg, Without(queue, 0), runs[queue[0].id := n]) && !HasId(Without(queue, 0), queue[0].id)
  {
    WithoutIsQueue(queue, 0);
    assert Without(queue, 0) == queue[1..];
  }

  lemma InsertFits(cfg: Config, queue: seq<Entry>, runs: map<string, nat>, e: Entry)
    requires QueueFits(cfg, queue, runs) && EntryFits(cfg, runs, e) && !HasId(queue, e.id)
    ensures QueueFits(cfg, Insert(queue, e), runs)
  {
    InsertIsQueueIff(queue, e);
    forall i | 0 <= i < |Insert(queue, e)|
      ensures EntryFits(cfg, runs, Insert(queue, e)[i])
    {
      InsertAt(queue, e, i);
    }
  }

  /** The byte of remaining runs does not go below 0. */
  lemma PutOffFits(cfg: Config, queue: seq<Entry>, runs: map<string, nat>, at: int)
    requires QueueFits(cfg, queue, runs) && queue != [] && queue[0].remainingRuns > 0 && queue[0].id in runs
    ensures QueueFits(cfg, PutOff(queue, 0, at), runs[queue[0].id := runs[queue[0].id] + 1])
    ensures Later(queue[0], at).remainingRuns == queue[0].remainingRuns - 1
  {
    var top, r, n := queue[0], Without(queue, 0), runs[queue[0].id] + 1;
    assert EntryFits(cfg, runs, top);
    WithoutTopFits(cfg, queue, runs, n);
    LaterFits(cfg, runs, top, at);
    InsertFits(cfg, r, runs[top.id := n], Later(top, at));
  }

  lemma LaterFits(cfg: Config, runs: map<string, nat>, e: Entry, at: int)
    requires EntryFits(cfg, runs, e) && e.remainingRuns > 0
    ensures Later(e, at).remainingRuns == e.remainingRuns - 1
    ensures EntryFits(cfg, runs[e.id := runs[e.id] + 1], Later(e, at))
  {
  }

  lemma RanTopFits(cfg: Config, w: State, status: Status)
    requires Fits(cfg, w) && w.phase.Waiting? && w.queue != []
    ensures Fits(cfg, RanTop(w, status))
  {
    assert EntryFits(cfg, w.runs, w.queue[0]);
    if status.Postponed? && w.queue[0].remainingRuns > 0 {
      PutOffFits(cfg, w.queue, w.runs, status.at);
    } else {
      TopAnswered(cfg, w);
    }
  }

  lemma TopAnswered(cfg: Config, w: State)
    requires Fits(cfg, w) && w.queue != []
    ensures var top := w.queue[0];
            && QueueFits(cfg, Without(w.queue, 0), w.runs[top.id := RunCount(w, top.id) + 1])
            && SentFits(w.sent + [AnswerMessage(top)], w.replied + 1)
  {
    var top := w.queue[0];
    assert EntryFits(cfg, w.runs, top);
    WithoutTopFits(cfg, w.queue, w.runs, w.runs[top.id] + 1);
    AnswerFits(w.sent, w.replied, top);
  }

  lemma AnswerFits(sent: seq<Msg>, replied: nat, e: Entry)
    requires SentFits(sent, replied) && NUL !in e.replyTo
    ensures SentFits(sent + [AnswerMessage(e)], replied + 1)
  {
    OneResult(e);
    SentOneMore(sent, replied, AnswerMessage(e));
  }

  /** An answered entry moves from the queue into the log. */
  lemma TopMoves(cfg: Config, w: State)
    requires QueueFits(cfg, w.queue, w.runs) && SentFits(w.sent, w.replied) && w.queue != []
    ensures var top := w.queue[0];
            var m := AnswerMessage(top);
            Sum(w.sent + [m], ReplyTasks) + Sum(Without(w.queue, 0), EntryTask) ==
              Sum(w.sent, ReplyTasks) + Sum(w.queue, EntryTask)
  {
    var top := w.queue[0];
    assert EntryFits(cfg, w.runs, top);
    OneResult(top);
    SumWithout(w.queue, 0);
    SentOneMore(w.sent, w.replied, AnswerMessage(top));
    Across(Sum(w.sent, ReplyTasks), EntryTask(top), Sum(Without(w.queue, 0), EntryTask));
  }

  lemma Across(sent: multiset<Task>, t: multiset<Task>, queue: multiset<Task>)
    ensures (sent + t) + queue == sent + (queue + t)
  {
  }

  lemma OneResult(e: Entry)
    requires NUL !in e.replyTo
    ensures var m := AnswerMessage(e); IsReply(m) && ReplyTasks(m) == EntryTask(e)
  {
    ReplyMessageTasks(e.replyTo, ResultsMessage(e.session, [Done(e.id)]));
    DoneTasksSnoc(e.replyTo, e.session, [], Done(e.id));
    assert [] + [Done(e.id)] == [Done(e.id)];
  }

  lemma SumInsert(queue: seq<Entry>, e: Entry)
    ensures Sum(Insert(queue, e), EntryTask) == Sum(queue, EntryTask) + EntryTask(e)
  {
    SumSplice(queue, UpperBound(queue, e.expiration), e, EntryTask);
  }

  lemma SumWithout(queue: seq<Entry>, i: nat)
    requires i < |queue|
    ensures Sum(queue, EntryTask) == Sum(Without(queue, i), EntryTask) + EntryTask(queue[i])
  {
    SumRemove(queue, i, EntryTask);
  }

  /** An entry put off stays the same task. */
  lemma PutOffStays(queue: seq<Entry>, at: int)
    requires queue != []
    ensures Sum(PutOff(queue, 0, at), EntryTask) == Sum(queue, EntryTask)
  {
    SumWithout(queue, 0);
    SumInsert(Without(queue, 0), Later(queue[0], at));
  }

  lemma RanTopConserves(cfg: Config, w: State, status: Status)
    requires Conserved(w) && QueueFits(cfg, w.queue, w.runs) && SentFits(w.sent, w.replied) && w.queue != []
    ensures Conserved(RanTop(w, status))
  {
    if status.Postponed? && w.queue[0].remainingRuns > 0 {
      PutOffStays(w.queue, status.at);
    } else {
      TopMoves(cfg, w);
    }
  }

  // ----- A request

  /** In a request, before its action n: what is settled, done and still ahead is all that was taken. */
  ghost predicate Ahead(w: State, req: Body, n: nat, results: seq<Result>)
    requires req.Request? && n <= |req.actions|
  {
    w.taken == Settled(w) + DoneTasks(w.replyTo, req.session, results) +
      ActionTasks(w.replyTo, req.session, req.actions[n..])
  }

  ghost predicate InRequest(cfg: Config, w: State, req: Body, n: nat, results: seq<Result>)
    requires req.Request? && n <= |req.actions|
  {
    && QueueFits(cfg, w.queue, w.runs) && LossesFit(w.dropped, w.unsent, w.taken) && NUL !in w.replyTo
    && Ahead(w, req, n, results)
  }

  lemma ActionTasksHead(client: string, session: string, actions: seq<Action>, n: nat)
    requires n < |actions|
    ensures ActionTasks(client, session, actions[n..]) ==
            multiset{Task(client, session, actions[n].id)} + ActionTasks(client, session, actions[n + 1..])
  {
    assert actions[n..][1..] == actions[n + 1..];
  }

  lemma DroppedHasTwin(cfg: Config, w: State, req: Body, n: nat, results: seq<Result>)
    requires req.Request? && n < |req.actions| && InRequest(cfg, w, req, n, results) &&
             HasId(w.queue, req.actions[n].id)
    ensures HasTwins(w.taken)
  {
    var i := IndexOf(w.queue, req.actions[n].id);
    var e := w.queue[i];
    var t, u := Task(w.replyTo, req.session, req.actions[n].id), Task(e.replyTo, e.session, e.id);
    SumWithout(w.queue, i);
    ActionTasksHead(w.replyTo, req.session, req.actions, n);
    assert u in Kept(w);
    TwoPlaces(t, u, Kept(w), w.dropped + w.cutOff + w.unsent + DoneTasks(w.replyTo, req.session, results),
              ActionTasks(w.replyTo, req.session, req.actions[n..]));
    assert w.taken == Kept(w) + (w.dropped + w.cutOff + w.unsent + DoneTasks(w.replyTo, req.session, results)) +
                      ActionTasks(w.replyTo, req.session, req.actions[n..]);
  }

  lemma TwoPlaces(t: Task, u: Task, xs: multiset<Task>, rest: multiset<Task>, ys: multiset<Task>)
    requires u in xs && t in ys
    ensures multiset{t, u} <= xs + rest + ys
  {
  }

  lemma QueuedAction(cfg: Config, w: State, session: string, a: Action, at: int)
    requires QueueFits(cfg, w.queue, w.runs) && NUL !in w.replyTo && a.name in cfg.registered && !HasId(w.queue, a.id)
    ensures QueueFits(cfg, Insert(w.queue, NewEntry(cfg, w, session, a, at)), w.runs[a.id := 0])
    ensures Sum(Insert(w.queue, NewEntry(cfg, w, session, a, at)), EntryTask) ==
            Sum(w.queue, EntryTask) + TaskFor(w, session, a)
  {
    var e := NewEntry(cfg, w, session, a, at);
    forall i | 0 <= i < |w.queue|
      ensures EntryFits(cfg, w.runs[a.id := 0], w.queue[i])
    {
    }
    assert QueueFits(cfg, w.queue, w.runs[a.id := 0]);
    InsertFits(cfg, w.queue, w.runs[a.id := 0], e);
    SumSplice(w.queue, UpperBound(w.queue, e.expiration), e, EntryTask);
  }

  lemma ActionFits(cfg: Config, w: State, req: Body, n: nat, results: seq<Result>, status: Status)
    requires req.Request? && n < |req.actions| && InRequest(cfg, w, req, n, results)
    ensures var w' := RanAction(cfg, w, req.session, req.actions[n], status).0;
            QueueFits(cfg, w'.queue, w'.runs) && LossesFit(w'.dropped, w'.unsent, w'.taken)
  {
    match FateOf(cfg, w.queue, req.actions[n], status)
    case Dropped => DroppedHasTwin(cfg, w, req, n, results);
    case Queued => QueuedAction(cfg, w, req.session, req.actions[n], status.at);
    case _ =>
  }

  /** A task ahead moves to another place of the account. */
  lemma Regroup(kept: multiset<Task>, dropped: multiset<Task>, cutOff: multiset<Task>, unsent: multiset<Task>,
                done: multiset<Task>, t: multiset<Task>, ahead: multiset<Task>, fate: Fate)
    ensures kept + dropped + cutOff + unsent + done + (t + ahead) ==
            match fate
            case Refused => kept + dropped + cutOff + unsent + (done + t) + ahead
            case Answered => kept + dropped + cutOff + unsent + (done + t) + ahead
            case Dropped => kept + (dropped + t) + cutOff + unsent + done + ahead
            case Queued => (kept + t) + dropped + cutOff + unsent + done + ahead
  {
  }

  lemma AheadHead(w: State, req: Body, n: nat, results: seq<Result>, fate: Fate)
    requires req.Request? && n < |req.actions| && Ahead(w, req, n, results)
    ensures var t, done := TaskFor(w, req.session, req.actions[n]), DoneTasks(w.replyTo, req.session, results);
            var ahead := ActionTasks(w.replyTo, req.session, req.actions[n + 1..]);
            w.taken ==
            match fate
            case Refused => Kept(w) + w.dropped + w.cutOff + w.unsent + (done + t) + ahead
            case Answered => Kept(w) + w.dropped + w.cutOff + w.unsent + (done + t) + ahead
            case Dropped => Kept(w) + (w.dropped + t) + w.cutOff + w.unsent + done + ahead
            case Queued => (Kept(w) + t) + w.dropped + w.cutOff + w.unsent + done + ahead
  {
    ActionTasksHead(w.replyTo, req.session, req.actions, n);
    Regroup(Kept(w), w.dropped, w.cutOff, w.unsent, DoneTasks(w.replyTo, req.session, results),
            TaskFor(w, req.session, req.actions[n]), ActionTasks(w.replyTo, req.session, req.actions[n + 1..]), fate);
  }

  lemma ActionConserves(cfg: Config, w: State, req: Body, n: nat, results: seq<Result>, status: Status)
    requires req.Request? && n < |req.actions| && InRequest(cfg, w, req, n, results)
    ensures var (w', more) := RanAction(cfg, w, req.session, req.actions[n], status);
            Ahead(w', req, n + 1, results + more)
  {
    assert results + [] == results;
    match FateOf(cfg, w.queue, req.actions[n], status)
    case Refused => RefusedConserves(w, req, n, results);
    case Answered => AnsweredConserves(w, req, n, results);
    case Dropped => DroppedConserves(w, req, n, results);
    case Queued => QueuedConserves(cfg, w, req, n, results, status);
  }

  lemma RefusedConserves(w: State, req: Body, n: nat, results: seq<Result>)
    requires req.Request? && n < |req.actions| && Ahead(w, req, n, results)
    ensures Ahead(w, req, n + 1, results + [Rejected(req.actions[n].id)])
  {
    AheadHead(w, req, n, results, Refused);
    DoneTasksSnoc(w.replyTo, req.session, results, Rejected(req.actions[n].id));
  }

  lemma DroppedConserves(w: State, req: Body, n: nat, results: seq<Result>)
    requires req.Request? && n < |req.actions| && Ahead(w, req, n, results)
    ensures Ahead(w.(dropped := w.dropped + TaskFor(w, req.session, req.actions[n])), req, n + 1, results)
  {
    AheadHead(w, req, n, results, Dropped);
  }

  lemma AnsweredConserves(w: State, req: Body, n: nat, results: seq<Result>)
    requires req.Request? && n < |req.actions| && Ahead(w, req, n, results)
    ensures Ahead(w, req, n + 1, results + [Done(req.actions[n].id)])
  {
    AheadHead(w, req, n, results, Answered);
    DoneTasksSnoc(w.replyTo, req.session, results, Done(req.actions[n].id));
  }

  lemma QueuedConserves(cfg: Config, w: State, req: Body, n: nat, results: seq<Result>, status: Status)
    requires req.Request? && n < |req.actions| && InRequest(cfg, w, req, n, results)
    requires FateOf(cfg, w.queue, req.actions[n], status).Queued?
    ensures Ahead(RanAction(cfg, w, req.session, req.actions[n], status).0, req, n + 1, results)
  {
    AheadHead(w, req, n, results, Queued);
    QueuedAction(cfg, w, req.session, req.actions[n], status.at);
    QueuedKept(w, RanAction(cfg, w, req.session, req.actions[n], status).0, TaskFor(w, req.session, req.actions[n]));
  }

  lemma QueuedKept(w: State, w': State, t: multiset<Task>)
    requires Sum(w'.queue, EntryTask) == Sum(w.queue, EntryTask) + t
    requires w'.sent == w.sent && w'.reply == w.reply && w'.replyFor == w.replyFor
    ensures Kept(w') == Kept(w) + t
  {
  }

  lemma ActionKeeps(cfg: Config, w: State, req: Body, n: nat, results: seq<Result>, status: Status)
    returns (w': State, results': seq<Result>)
    requires req.Request? && n < |req.actions| && InRequest(cfg, w, req, n, results)
    ensures InRequest(cfg, w', req, n + 1, results')
    ensures RanAction(cfg, w, req.session, req.actions[n], status).0 == w'
    ensures results + RanAction(cfg, w, req.session, req.actions[n], status).1 == results'
  {
    ActionFits(cfg, w, req, n, results, status);
    ActionConserves(cfg, w, req, n, results, status);
    ActionFrame(cfg, w, req.session, req.actions[n], status);
    var (w2, more) := RanAction(cfg, w, req.session, req.actions[n], status);
    w', results' := w2, results + more;
  }

  lemma ActionFrame(cfg: Config, w: State, session: string, a: Action, status: Status)
    ensures var w' := RanAction(cfg, w, session, a, status).0;
            w' == w.(queue := w'.queue, runs := w'.runs, dropped := w'.dropped)
  {
  }

  /** The actions of a request touch the queue and the account only. */
  lemma {:induction false} ActionsFrame(cfg: Config, w: State, req: Body, statuses: seq<Status>)
    requires req.Request? && |statuses| <= |req.actions|
    ensures var w1 := RanActions(cfg, w, req, statuses).0;
            w1 == w.(queue := w1.queue, runs := w1.runs, dropped := w1.dropped)
    decreases |statuses|
  {
    if statuses != [] {
      ActionsFrame(cfg, w, req, statuses[..|statuses| - 1]);
    }
  }

  lemma {:induction false} ActionsKeep(cfg: Config, w: State, req: Body, statuses: seq<Status>)
    returns (w': State, results: seq<Result>)
    requires req.Request? && |statuses| <= |req.actions| && InRequest(cfg, w, req, 0, [])
    ensures (w', results) == RanActions(cfg, w, req, statuses) && InRequest(cfg, w', req, |statuses|, results)
    decreases |statuses|
  {
    if statuses == [] {
      w', results := w, [];
    } else {
      var n := |statuses| - 1;
      var w1, results1 := ActionsKeep(cfg, w, req, statuses[..n]);
      w', results := ActionKeeps(cfg, w1, req, n, results1, statuses[n]);
    }
  }

  lemma ConcludedKeeps(cfg: Config, w: State, req: Body, n: nat, results: seq<Result>, report: seq<Result>)
    requires req.Request? && n <= |req.actions| && InRequest(cfg, w, req, n, results) && w.phase.Handling?
    requires ReplyFits(w) && SentFits(w.sent, w.replied) && (report == [] || report == [Malformed("unknown")])
    requires n < |req.actions| ==> report != []
    ensures Invariant(cfg, Concluded(w, req, req.actions[n..], results + report))
  {
    DoneTasksSnoc(w.replyTo, req.session, results, Malformed("unknown"));
    assert results + [] == results;
    ConcludedConserves(w, req, req.actions[n..], results + report);
    ConcludedFits(cfg, w, req, req.actions[n..], results + report);
  }

  lemma ConcludedFits(cfg: Config, w: State, req: Body, rest: seq<Action>, results: seq<Result>)
    requires req.Request? && ReplyFits(w) && w.phase.Handling? && SentFits(w.sent, w.replied)
    requires QueueFits(cfg, w.queue, w.runs) && LossesFit(w.dropped, w.unsent, w.taken)
    ensures Fits(cfg, Concluded(w, req, rest, results))
  {
    if results != [] && w.reply.Some? {
      NoClientTasks(w.reply.value);
    }
  }

  lemma ConcludedConserves(w: State, req: Body, rest: seq<Action>, results: seq<Result>)
    requires req.Request?
    requires w.taken == Settled(w) + DoneTasks(w.replyTo, req.session, results) +
             ActionTasks(w.replyTo, req.session, rest)
    ensures Conserved(Concluded(w, req, rest, results))
  {
    if results == [] {
      LeaveOut(Kept(w), w.dropped, w.cutOff, w.unsent, ActionTasks(w.replyTo, req.session, rest));
    } else {
      ReplyConserves(w, req, rest, results);
    }
    NoMore(Settled(Concluded(w, req, rest, results)));
  }

  lemma ReplyConserves(w: State, req: Body, rest: seq<Action>, results: seq<Result>)
    requires req.Request? && results != []
    requires w.taken == Settled(w) + DoneTasks(w.replyTo, req.session, results) +
             ActionTasks(w.replyTo, req.session, rest)
    ensures w.taken == Settled(Concluded(w, req, rest, results))
  {
    Replace(Sum(w.sent, ReplyTasks) + Sum(w.queue, EntryTask), Pending(w), w.dropped, w.cutOff, w.unsent,
            DoneTasks(w.replyTo, req.session, results), ActionTasks(w.replyTo, req.session, rest));
    assert Pending(Concluded(w, req, rest, results)) == DoneTasks(w.replyTo, req.session, results);
  }

  lemma LeaveOut(kept: multiset<Task>, dropped: multiset<Task>, cutOff: multiset<Task>, unsent: multiset<Task>,
                 left: multiset<Task>)
    ensures kept + dropped + cutOff + unsent + multiset{} + left == kept + dropped + (cutOff + left) + unsent
  {
  }

  lemma Replace(sums: multiset<Task>, pending: multiset<Task>, dropped: multiset<Task>, cutOff: multiset<Task>,
                unsent: multiset<Task>, done: multiset<Task>, left: multiset<Task>)
    ensures sums + pending + dropped + cutOff + unsent + done + left ==
            sums + done + dropped + (cutOff + left) + (unsent + pending)
  {
  }

  lemma NoMore(tasks: multiset<Task>)
    ensures tasks + multiset{} == tasks
  {
  }

  lemma {:induction false} DoneTasksClient(client: string, session: string, results: seq<Result>)
    ensures forall t :: t in DoneTasks(client, session, results) ==> t.client == client
    decreases |results|
  {
    if results != [] {
      DoneTasksClient(client, session, results[..|results| - 1]);
    }
  }

  lemma NoClientTasks(msg: Msg)
    ensures forall t :: t in MessageTasks("", msg) ==> t.client == ""
  {
    if msg != [] && msg[|msg| - 1].Json? && msg[|msg| - 1].body.Results? {
      DoneTasksClient("", msg[|msg| - 1].body.session, msg[|msg| - 1].body.results);
    }
  }

  lemma ProcessStarts(cfg: Config, w: State)
    requires Invariant(cfg, w) && w.phase.Handling?
    ensures InRequest(cfg, w, RequestOf(w.phase.request), 0, [])
  {
    var req := RequestOf(w.phase.request);
    assert req.actions[0..] == req.actions;
    NoMore(Settled(w));
  }

  lemma ProcessKeeps(cfg: Config, w: State, statuses: seq<Status>)
    requires Invariant(cfg, w) && Enabled(cfg, w, Process(statuses))
    ensures Invariant(cfg, Processed(cfg, w, statuses))
  {
    var req := RequestOf(w.phase.request);
    ProcessStarts(cfg, w);
    ActionsFrame(cfg, w, req, statuses);
    var w1, results := ActionsKeep(cfg, w, req, statuses);
    var brokeOff := |statuses| < |req.actions| || !req.wellFormed;
    ConcludedKeeps(cfg, w1, req, |statuses|, results, if brokeOff then [Malformed("unknown")] else []);
  }

  /** A request that breaks off, in its text or at an action, is answered: behind the results so far the
      reply to its client reports it. */
  lemma BreakOffIsReported(cfg: Config, w: State, statuses: seq<Status>) returns (results: seq<Result>)
    requires Enabled(cfg, w, Process(statuses))
    requires var req := RequestOf(w.phase.request); |statuses| < |req.actions| || !req.wellFormed
    ensures var w' := Processed(cfg, w, statuses);
            && w'.reply == Some(ResultsMessage(RequestOf(w.phase.request).session, results + [Malformed("unknown")]))
            && w'.replyFor == w'.replyTo == w.replyTo
  {
    var req := RequestOf(w.phase.request);
    ActionsFrame(cfg, w, req, statuses);
    results := RanActions(cfg, w, req, statuses).1;
  }

  // ----- Runs

  lemma StepKeeps(cfg: Config, w: State, step: Step)
    requires Invariant(cfg, w) && Enabled(cfg, w, step)
    ensures Invariant(cfg, Next(cfg, w, step))
  {
    match step
    case SendReply =>
      RepliedFits(cfg, w);
      RepliedConserves(w);
    case RunTop(_, status) =>
      RanTopFits(cfg, w, status);
      RanTopConserves(cfg, w, status);
    case Take(msg) => TakeKeeps(cfg, w, msg);
    case Process(statuses) => ProcessKeeps(cfg, w, statuses);
    case Heartbeat => SignalKeeps(cfg, w, HEARTBEAT);
    case Connect => SignalKeeps(cfg, w, READY);
  }

  ghost predicate IsRun(cfg: Config, ws: seq<State>, steps: seq<Step>) {
    && |ws| == |steps| + 1 && ws[0] == INITIAL
    && forall i :: 0 <= i < |steps| ==> Leads(cfg, ws[i], steps[i], ws[i + 1])
  }

  ghost predicate Leads(cfg: Config, w: State, step: Step, w': State) {
    Enabled(cfg, w, step) && w' == Next(cfg, w, step)
  }

  lemma InitialFits(cfg: Config)
    ensures Invariant(cfg, INITIAL)
  {
  }

  /** At every moment of every run every task taken is in exactly one place, no queued action has run
      more often than its retries and once more, and the reply is there when the worker expects it. */
  lemma {:induction false} RunKeeps(cfg: Config, ws: seq<State>, steps: seq<Step>)
    requires IsRun(cfg, ws, steps)
    ensures Invariant(cfg, ws[|steps|])
    decreases |steps|
  {
    if steps == [] {
      InitialFits(cfg);
    } else {
      var n := |steps| - 1;
      var w := ws[n];
      RunKeeps(cfg, ws[..n + 1], steps[..n]);
      assert ws[..n + 1][n] == w;
      assert Leads(cfg, w, steps[n], ws[n + 1]);
      StepKeeps(cfg, w, steps[n]);
    }
  }

  ghost predicate Reached(cfg: Config, w: State) {
    exists ws, steps :: IsRun(cfg, ws, steps) && w == ws[|steps|]
  }

  lemma InitialIsReached(cfg: Config)
    ensures Reached(cfg, INITIAL)
  {
    assert IsRun(cfg, [INITIAL], []);
  }

  lemma ReachedKeeps(cfg: Config, w: State)
    requires Reached(cfg, w)
    ensures Invariant(cfg, w)
  {
    var ws, steps :| IsRun(cfg, ws, steps) && w == ws[|steps|];
    RunKeeps(cfg, ws, steps);
  }

  lemma RunGoesOn(cfg: Config, ws: seq<State>, steps: seq<Step>, step: Step, w': State)
    requires IsRun(cfg, ws, steps) && Leads(cfg, ws[|steps|], step, w')
    ensures IsRun(cfg, ws + [w'], steps + [step])
  {
    var ws', steps' := ws + [w'], steps + [step];
    forall i | 0 <= i < |steps'|
      ensures Leads(cfg, ws'[i], steps'[i], ws'[i + 1])
    {
    }
  }

  lemma NextIsReached(cfg: Config, w: State, step: Step)
    requires Reached(cfg, w) && Enabled(cfg, w, step)
    ensures Reached(cfg, Next(cfg, w, step))
  {
    var ws, steps :| IsRun(cfg, ws, steps) && w == ws[|steps|];
    var w' := Next(cfg, w, step);
    RunGoesOn(cfg, ws, steps, step, w');
    assert (ws + [w'])[|steps + [step]|] == w';
  }

  lemma TopFits(cfg: Config, w: State)
    requires Reached(cfg, w) && w.queue != []
    ensures EntryFits(cfg, w.runs, w.queue[0])
  {
    ReachedKeeps(cfg, w);
  }

  /** The assertion at the start of recv never fails. */
  lemma ReplyIsThere(cfg: Config, w: State)
    requires Reached(cfg, w) && w.phase.Returning?
    ensures w.reply.Some? || !w.expectReply
  {
    ReachedKeeps(cfg, w);
  }

  /** Every run leaves the other due entries, in order: the loop over the due entries ends. */
  lemma RanTopDue(cfg: Config, w: State, now: int, status: Status)
    requires IsQueue(w.queue) && Enabled(cfg, w, RunTop(now, status))
    ensures Due(RanTop(w, status).queue, now) == Due(w.queue, now)[1..]
  {
    DueAfterRun(w.queue, now, if status.Postponed? then status.at else now);
  }

  /** An action that a run puts off again at a time, with runs left, is due from one second later on, and not
      before. */
  lemma PutOffIsDueLater(w: State, at: int, now: int)
    requires IsQueue(w.queue) && w.queue != [] && w.queue[0].remainingRuns > 0
    ensures HasId(Due(RanTop(w, Postponed(at)).queue, now), w.queue[0].id) <==> at + 1 <= now
  {
    WithoutIsQueue(w.queue, 0);
    InsertedIsDue(Without(w.queue, 0), Later(w.queue[0], at), now);
  }

  /** An action of a request that is put off until a time is due from then on, and not before. */
  lemma QueuedIsDueLater(cfg: Config, w: State, session: string, a: Action, at: int, now: int)
    requires IsQueue(w.queue) && FateOf(cfg, w.queue, a, Postponed(at)).Queued?
    ensures HasId(Due(RanAction(cfg, w, session, a, Postponed(at)).0.queue, now), a.id) <==> at <= now
  {
    InsertedIsDue(w.queue, NewEntry(cfg, w, session, a, at), now);
  }

  /** Actions that are due at a time, run one after the other. */
  ghost predicate RunsTo(cfg: Config, w: State, now: int, statuses: seq<Status>, w': State)
    decreases |statuses|
  {
    if statuses == [] then w' == w
    else
      var n := |statuses| - 1;
      exists w1 :: RunsTo(cfg, w, now, statuses[..n], w1) && Enabled(cfg, w1, RunTop(now, statuses[n])) &&
        w' == RanTop(w1, statuses[n])
  }

  lemma RunsOneMore(cfg: Config, w: State, now: int, statuses: seq<Status>, w1: State, status: Status)
    requires RunsTo(cfg, w, now, statuses, w1) && Enabled(cfg, w1, RunTop(now, status))
    ensures RunsTo(cfg, w, now, statuses + [status], RanTop(w1, status))
  {
    assert (statuses + [status])[..|statuses|] == statuses;
  }

  /** The step lets no action break off the request that it processes. */
  predicate RunsAll(w: State, step: Step) {
    step.Process? && w.phase.Handling? ==> |step.statuses| == |RequestOf(w.phase.request).actions|
  }

  lemma NextCutsOff(cfg: Config, w: State, step: Step)
    requires Enabled(cfg, w, step) && RunsAll(w, step)
    ensures Next(cfg, w, step).cutOff == w.cutOff
  {
    if step.Process? {
      var req := RequestOf(w.phase.request);
      ActionsFrame(cfg, w, req, step.statuses);
      assert req.actions[|step.statuses|..] == [];
      NoMore(w.cutOff);
    }
  }

  /** Nothing is cut off in a run in which no action breaks off its request. */
  lemma {:induction false} NothingIsCutOff(cfg: Config, ws: seq<State>, steps: seq<Step>)
    requires IsRun(cfg, ws, steps) && forall i :: 0 <= i < |steps| ==> RunsAll(ws[i], steps[i])
    ensures ws[|steps|].cutOff == multiset{}
    decreases |steps|
  {
    if steps != [] {
      var n := |steps| - 1;
      NothingIsCutOff(cfg, ws[..n + 1], steps[..n]);
      assert Leads(cfg, ws[n], steps[n], ws[n + 1]);
      NextCutsOff(cfg, ws[n], steps[n]);
    }
  }

  /** No client of these tasks is without a name. */
  predicate Named(tasks: multiset<Task>) {
    forall t :: t in tasks ==> t.client != ""
  }

  /** With distinct ids, named clients and nothing cut off the account has no loss. */
  lemma NoLosses(cfg: Config, w: State)
    requires Invariant(cfg, w) && w.cutOff == multiset{} && !HasTwins(w.taken) && Named(w.taken)
    ensures w.dropped == w.unsent == multiset{} && w.taken == Kept(w) + InProcess(w)
    ensures !w.phase.Returning? ==> Pending(w) == multiset{}
  {
    assert forall t :: t in w.unsent ==> t in w.taken;
    assert w.unsent == multiset{};
    assert w.dropped == multiset{};
    if !w.phase.Returning? && w.reply.Some? {
      NoClientTasks(w.reply.value);
      assert forall t :: t in Pending(w) ==> t in w.taken;
    }
  }

  /** With distinct ids, no client without a name, and no action that breaks off its request, every task
      taken is answered by a result with its id, queued, or in the request or the reply in hand. */
  lemma NothingIsLost(cfg: Config, ws: seq<State>, steps: seq<Step>)
    requires IsRun(cfg, ws, steps) && forall i :: 0 <= i < |steps| ==> RunsAll(ws[i], steps[i])
    requires var w := ws[|steps|]; !HasTwins(w.taken) && Named(w.taken)
    ensures var w := ws[|steps|];
            w.taken == Sum(w.sent, ReplyTasks) + Sum(w.queue, EntryTask) + Pending(w) + InProcess(w)
    ensures var w := ws[|steps|]; !w.phase.Returning? ==> Pending(w) == multiset{}
  {
    RunKeeps(cfg, ws, steps);
    NothingIsCutOff(cfg, ws, steps);
    NoLosses(cfg, ws[|steps|]);
  }
}
