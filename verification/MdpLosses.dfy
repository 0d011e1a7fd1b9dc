/** What a run of the system can lose with a worker, and when it loses nothing there. */
module MdpLosses {
  import opened MdpMessage
  import opened Tasks
  import opened ZmqMessage
  import opened MdpSystem
  import BrokerSpec
  import WorkerSpec

  /** No worker's action breaks off the request that it is in. */
  ghost predicate RunsAll(n: Net, e: Event) {
    e.WorkerMoves? && e.i < |n.workers| ==> WorkerSpec.RunsAll(n.workers[e.i], e.step)
  }

  /** With a worker, and not lost there. */
  function Held(w: WorkerSpec.State): multiset<Task> {
    Sum(w.queue, WorkerSpec.EntryTask) + WorkerSpec.Pending(w) + WorkerSpec.InProcess(w)
  }

  // ----- Every task that a worker took was asked for by a named client

  lemma {:induction false} SumIncludes<T>(xs: seq<T>, i: nat, f: T -> multiset<Task>)
    requires i < |xs|
    ensures f(xs[i]) <= Sum(xs, f)
    decreases |xs|
  {
    if i < |xs| - 1 {
      SumIncludes(xs[..|xs| - 1], i, f);
    }
  }

  lemma AskedAreNamed(asked: seq<Ask>, local: set<string>)
    requires forall i :: 0 <= i < |asked| ==> Routable(asked[i].client)
    ensures WorkerSpec.Named(AskedTasks(asked, local))
  {
    forall t | t in AskedTasks(asked, local)
      ensures t.client != ""
    {
      var k, j := AskedWasAsked(asked, local, t);
      assert AsksFor(asked[k], local, j, t);
      RoutableCrosses(asked[k].client);
    }
  }

  lemma DownIsAsked(s: Setting, n: Net)
    requires BrokerSpec.Fifo(n.broker) && AskBalance(s, n)
    ensures Sum(n.broker.toWorkers, DownTasks) <= AskedTasks(n.asked, s.local)
  {
    SumAppend(BrokerSpec.RequestsIn(n.broker.toWorkers), BrokerSpec.Messages(n.broker.requests), RequestTasks);
    RequestsInTasks(n.broker.toWorkers);
  }

  lemma TakenIsAsked(s: Setting, n: Net, i: nat)
    requires BrokerSpec.Fifo(n.broker) && AskBalance(s, n) && DownBalance(n) && i < |n.workers|
    ensures n.workers[i].taken <= AskedTasks(n.asked, s.local)
  {
    DownIsAsked(s, n);
    SumIncludes(n.workers, i, Taken);
    assert Taken(n.workers[i]) <= Sum(n.broker.toWorkers, DownTasks);
  }

  /** What holds of a worker in every run. */
  lemma RunWorker(s: Setting, ns: seq<Net>, es: seq<Event>, i: nat)
    requires IsRun(s, ns, es) && i < |ns[|es|].workers|
    ensures var n := ns[|es|];
            && WorkerSpec.Invariant(s.config, n.workers[i]) && WorkerSpec.Named(n.workers[i].taken)
            && n.workers[i].taken <= AskedTasks(n.asked, s.local)
  {
    var n := ns[|es|];
    RunFacts(s, ns, es);
    TakenIsAsked(s, n, i);
    AskedAreNamed(n.asked, s.local);
    assert forall t :: t in n.workers[i].taken ==> t in AskedTasks(n.asked, s.local);
  }

  lemma RunFacts(s: Setting, ns: seq<Net>, es: seq<Event>)
    requires IsRun(s, ns, es)
    ensures var n := ns[|es|];
            BrokerSpec.Fifo(n.broker) && AskBalance(s, n) && DownBalance(n) && AsksFit(n) && WorkersFit(s, n)
  {
    RunKeeps(s, ns, es);
  }

  /** In every run no worker finishes a reply that has no client to go to. */
  lemma EveryAnswerHasAClient(s: Setting, ns: seq<Net>, es: seq<Event>, i: nat)
    requires IsRun(s, ns, es) && i < |ns[|es|].workers|
    ensures ns[|es|].workers[i].unsent == multiset{}
  {
    var w := ns[|es|].workers[i];
    RunWorker(s, ns, es, i);
    assert forall t :: t in w.unsent ==> t in w.taken;
  }

  // ----- Runs without a loss at a worker

  lemma StepCutsOff(s: Setting, n: Net, e: Event, n': Net)
    requires Step(s, n, e, n') && RunsAll(n, e)
    requires forall i :: 0 <= i < |n.workers| ==> n.workers[i].cutOff == multiset{}
    ensures forall i :: 0 <= i < |n'.workers| ==> n'.workers[i].cutOff == multiset{}
  {
    match e
    case WorkerReads(i, at) =>
      WorkerSpec.NextCutsOff(s.config, n.workers[i], WorkerSpec.Take(FromDown(n.down[at])));
    case WorkerMoves(i, step, name) => WorkerSpec.NextCutsOff(s.config, n.workers[i], step);
    case _ =>
  }

  lemma {:induction false} NothingIsCutOff(s: Setting, ns: seq<Net>, es: seq<Event>)
    requires IsRun(s, ns, es) && forall k :: 0 <= k < |es| ==> RunsAll(ns[k], es[k])
    ensures var n := ns[|es|]; forall i :: 0 <= i < |n.workers| ==> n.workers[i].cutOff == multiset{}
    decreases |es|
  {
    if es != [] {
      var k := |es| - 1;
      NothingIsCutOff(s, ns[..k + 1], es[..k]);
      assert ns[..k + 1][k] == ns[k];
      StepCutsOff(s, ns[k], es[k], ns[k + 1]);
    }
  }

  lemma TwinsOfMore(xs: multiset<Task>, ys: multiset<Task>)
    requires xs <= ys && WorkerSpec.HasTwins(xs)
    ensures WorkerSpec.HasTwins(ys)
  {
    var t, u :| multiset{t, u} <= xs && t.id == u.id;
    assert multiset{t, u} <= ys;
  }

  lemma WorkerLosesNothing(s: Setting, ns: seq<Net>, es: seq<Event>, i: nat)
    requires IsRun(s, ns, es) && i < |ns[|es|].workers| && ns[|es|].workers[i].cutOff == multiset{}
    requires !WorkerSpec.HasTwins(AskedTasks(ns[|es|].asked, s.local))
    ensures InHand(ns[|es|].workers[i]) == Held(ns[|es|].workers[i])
    ensures var w := ns[|es|].workers[i]; !w.phase.Returning? ==> WorkerSpec.Pending(w) == multiset{}
  {
    var w := ns[|es|].workers[i];
    RunWorker(s, ns, es, i);
    if WorkerSpec.HasTwins(w.taken) {
      TwinsOfMore(w.taken, AskedTasks(ns[|es|].asked, s.local));
    }
    WorkerSpec.NoLosses(s.config, w);
  }

  lemma {:induction false} SumsAgree<T>(xs: seq<T>, f: T -> multiset<Task>, g: T -> multiset<Task>)
    requires forall i :: 0 <= i < |xs| ==> f(xs[i]) == g(xs[i])
    ensures Sum(xs, f) == Sum(xs, g)
    decreases |xs|
  {
    if xs != [] {
      SumsAgree(xs[..|xs| - 1], f, g);
    }
  }

  /** In every run in which the ids are distinct and no action breaks off its request, everything that
      clients asked of workers is delivered, on its way up, with a worker, on its way down, waiting at the
      broker, or lost by a channel or the broker: the workers lose nothing. */
  lemma WorkersLoseNothing(s: Setting, ns: seq<Net>, es: seq<Event>)
    requires IsRun(s, ns, es) && forall k :: 0 <= k < |es| ==> RunsAll(ns[k], es[k])
    requires !WorkerSpec.HasTwins(AskedTasks(ns[|es|].asked, s.local))
    ensures var n := ns[|es|];
            AskedTasks(n.asked, s.local) ==
            Delivered(n) + Sum(n.up, UpTasks) + Sum(n.workers, Held) + Sum(n.down, DownTasks) +
            Sum(BrokerSpec.Messages(n.broker.requests), RequestTasks) + n.lostUp + n.lostDown
  {
    var n := ns[|es|];
    NothingIsCutOff(s, ns, es);
    forall i | 0 <= i < |n.workers|
      ensures InHand(n.workers[i]) == Held(n.workers[i])
    {
      WorkerLosesNothing(s, ns, es, i);
    }
    SumsAgree(n.workers, InHand, Held);
    EverythingIsAccountedFor(s, ns, es);
  }

  /** Nothing is on its way, waits or is worked on, and nothing was lost on the way. */
  ghost predicate AtRest(n: Net) {
    && n.up == [] && n.down == [] && n.broker.requests == [] && n.lostUp == n.lostDown == multiset{}
    && forall i :: 0 <= i < |n.workers| ==> n.workers[i].queue == [] && n.workers[i].phase.Waiting?
  }

  /** When such a run comes to rest every action asked of workers has been answered to its client, each as
      often as it was asked for. */
  lemma AtRestAllIsDelivered(s: Setting, ns: seq<Net>, es: seq<Event>)
    requires IsRun(s, ns, es) && forall k :: 0 <= k < |es| ==> RunsAll(ns[k], es[k])
    requires !WorkerSpec.HasTwins(AskedTasks(ns[|es|].asked, s.local)) && AtRest(ns[|es|])
    ensures Delivered(ns[|es|]) == AskedTasks(ns[|es|].asked, s.local)
  {
    var n := ns[|es|];
    NothingIsCutOff(s, ns, es);
    forall i | 0 <= i < |n.workers|
      ensures Held(n.workers[i]) == multiset{}
    {
      WorkerLosesNothing(s, ns, es, i);
    }
    SumOfEmpty(n.workers, Held);
    assert BrokerSpec.Messages([]) == [];
    WorkersLoseNothing(s, ns, es);
  }
}
