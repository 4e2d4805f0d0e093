/** Tasks and ids in every interleaving: nothing pushed is lost, changed or run twice, workers
    run what they pop, and ids are given out again in the order they came back. */
module PoolTasks {
  import opened ThreadPool
  import opened PoolConservation

  // ----- Tasks ---------------------------------------------------------------------------------

  /** The task a step pushes: a caller's with its own priority, the pool's own with 4. */
  function PushedBy(l: Label): multiset<PoolTask>
  {
    match l
    case AddTask(priority, stamp) => multiset{PoolTask(User, priority, stamp)}
    case PushPause(stamp) => multiset{PoolTask(Pause, 4, stamp)}
    case PushEnd(stamp) => multiset{PoolTask(End, 4, stamp)}
    case _ => multiset{}
  }

  function PoppedBy(p: Pool, l: Label): multiset<PoolTask>
  {
    if l.Pop? && l.i < |p.queue| then multiset{p.queue[l.i]} else multiset{}
  }

  function Pushed(labels: seq<Label>): multiset<PoolTask>
  {
    if labels == [] then multiset{} else Pushed(labels[..|labels| - 1]) + PushedBy(labels[|labels| - 1])
  }

  function Popped(run: Run, t: nat): multiset<PoolTask>
    requires t <= |run.labels| < |run.states|
  {
    if t == 0 then multiset{} else Popped(run, t - 1) + PoppedBy(run.states[t - 1], run.labels[t - 1])
  }

  lemma WithoutOne(queue: seq<PoolTask>, i: nat)
    requires i < |queue|
    ensures multiset(Without(queue, i)) + multiset{queue[i]} == multiset(queue)
  {
    assert queue == queue[..i] + [queue[i]] + queue[i + 1..];
  }

  lemma OneMore(queue: seq<PoolTask>, t: PoolTask)
    ensures multiset(queue + [t]) == multiset(queue) + multiset{t}
  {
  }

  lemma OtherStepsKeepQueue(p: Pool, l: Label)
    requires Enabled(p, l) && !l.AddTask? && !l.PushPause? && !l.PushEnd? && !l.Pop?
    ensures Apply(p, l).queue == p.queue && PushedBy(l) == multiset{} && PoppedBy(p, l) == multiset{}
  {
  }

  lemma StepConserves(p: Pool, l: Label)
    requires Enabled(p, l)
    ensures multiset(Apply(p, l).queue) + PoppedBy(p, l) == multiset(p.queue) + PushedBy(l)
  {
    match l
    case AddTask(priority, stamp) => OneMore(p.queue, PoolTask(User, priority, stamp));
    case PushPause(stamp) => OneMore(p.queue, PoolTask(Pause, 4, stamp));
    case PushEnd(stamp) => OneMore(p.queue, PoolTask(End, 4, stamp));
    case Pop(_, i) => WithoutOne(p.queue, i);
    case _ => OtherStepsKeepQueue(p, l);
  }

  lemma Rebalance(queue: multiset<PoolTask>, popped: multiset<PoolTask>, queue': multiset<PoolTask>,
                  more: multiset<PoolTask>, pushed: multiset<PoolTask>)
    requires queue' + more == queue + pushed
    ensures queue' + (popped + more) == (queue + popped) + pushed
  {
    assert queue' + (popped + more) == (queue' + more) + popped;
    assert (queue + popped) + pushed == (queue + pushed) + popped;
  }

  lemma PushedNext(labels: seq<Label>, t: nat)
    requires t < |labels|
    ensures Pushed(labels[..t + 1]) == Pushed(labels[..t]) + PushedBy(labels[t])
  {
    assert labels[..t + 1][..t] == labels[..t];
  }

  lemma PoppedNext(run: Run, t: nat)
    requires t < |run.labels| < |run.states|
    ensures Popped(run, t + 1) == Popped(run, t) + PoppedBy(run.states[t], run.labels[t])
  {
  }

  ghost predicate Conserved(run: Run, t: nat)
    requires t <= |run.labels| < |run.states|
  {
    multiset(run.states[t].queue) + Popped(run, t) == Pushed(run.labels[..t])
  }

  lemma NothingPushed(n: nat, run: Run)
    requires IsRun(n, run)
    ensures Conserved(run, 0)
  {
    assert run.labels[..0] == [] && run.states[0].queue == [];
  }

  lemma NextConserved(n: nat, run: Run, t: nat)
    requires IsRun(n, run) && t < |run.labels| && Conserved(run, t)
    ensures Conserved(run, t + 1)
  {
    StepOfRun(n, run, t);
    StepConserves(run.states[t], run.labels[t]);
    PushedNext(run.labels, t);
    PoppedNext(run, t);
    Rebalance(multiset(run.states[t].queue), Popped(run, t), multiset(run.states[t + 1].queue),
              PoppedBy(run.states[t], run.labels[t]), PushedBy(run.labels[t]));
  }

  lemma {:induction false} ConservedAt(n: nat, run: Run, t: nat)
    requires IsRun(n, run) && t < |run.states|
    ensures Conserved(run, t)
  {
    if t == 0 {
      NothingPushed(n, run);
    } else {
      ConservedAt(n, run, t - 1);
      NextConserved(n, run, t - 1);
    }
  }

  /** In every run the tasks queued and those popped are exactly those pushed, each with the
      kind, priority and time it was pushed with. */
  lemma TasksConserved(n: nat, run: Run, t: nat)
    requires IsRun(n, run) && t < |run.states|
    ensures multiset(run.states[t].queue) + Popped(run, t) == Pushed(run.labels[..t])
  {
    ConservedAt(n, run, t);
  }

  // ----- Workers run what they pop ---------------------------------------------------------------

  function PopsKind(p: Pool, l: Label, kind: Kind): nat
  {
    if l.Pop? && l.i < |p.queue| && p.queue[l.i].kind == kind then 1 else 0
  }

  /** The step in which a task of that kind is run to its end, or, for a Pause task, up to the
      point where it waits. */
  function RunsKind(l: Label, kind: Kind): nat
  {
    match kind
    case User => if l.FinishTask? then 1 else 0
    case End => if l.RunEnd? then 1 else 0
    case Pause => if l.RunPause? then 1 else 0
  }

  /** How many tasks of a kind the first `t` steps popped. */
  function PoppedOf(run: Run, t: nat, kind: Kind): nat
    requires t <= |run.labels| < |run.states|
  {
    if t == 0 then 0 else PoppedOf(run, t - 1, kind) + PopsKind(run.states[t - 1], run.labels[t - 1], kind)
  }

  /** How many they ran. */
  function RunOf(run: Run, t: nat, kind: Kind): nat
    requires t <= |run.labels|
  {
    if t == 0 then 0 else RunOf(run, t - 1, kind) + RunsKind(run.labels[t - 1], kind)
  }

  /** The state of a worker that has popped a task of that kind and not run it. */
  function HasPopped(kind: Kind): Worker
  {
    match kind
    case User => Busy
    case End => HoldingEnd
    case Pause => HoldingPause
  }

  lemma PopHolds(p: Pool, l: Label, kind: Kind)
    requires Enabled(p, l) && IdsKept(p)
    ensures N(Apply(p, l).workers, HasPopped(kind)) + RunsKind(l, kind)
         == N(p.workers, HasPopped(kind)) + PopsKind(p, l, kind)
  {
    StepWorkers(p, l, HasPopped(kind));
  }

  /** In every run, for each kind, the tasks popped are those that were run and those in the hands
      of a worker. */
  lemma {:induction false} PoppedAreRun(n: nat, run: Run, t: nat, kind: Kind)
    requires IsRun(n, run) && t < |run.states|
    ensures PoppedOf(run, t, kind) == N(run.states[t].workers, HasPopped(kind)) + RunOf(run, t, kind)
  {
    if t > 0 {
      PoppedAreRun(n, run, t - 1, kind);
      RunKeeps(n, run, t - 1);
      StepOfRun(n, run, t - 1);
      PopHolds(run.states[t - 1], run.labels[t - 1], kind);
    }
  }

  // ----- Ids ---------------------------------------------------------------------------------------

  function LeftBy(l: Label): seq<nat>
  {
    if l.Leave? then [l.tid] else []
  }

  function RestartedBy(p: Pool, l: Label): seq<nat>
  {
    if l.Reuse? && p.deleted != [] then [p.deleted[0]] else []
  }

  /** The ids handed back, in order. */
  function Left(labels: seq<Label>): seq<nat>
  {
    if labels == [] then [] else Left(labels[..|labels| - 1]) + LeftBy(labels[|labels| - 1])
  }

  /** The ids started again, in order. */
  function Restarted(run: Run, t: nat): seq<nat>
    requires t <= |run.labels| < |run.states|
  {
    if t == 0 then [] else Restarted(run, t - 1) + RestartedBy(run.states[t - 1], run.labels[t - 1])
  }

  lemma StepKeepsOrder(p: Pool, l: Label)
    requires Enabled(p, l)
    ensures RestartedBy(p, l) + Apply(p, l).deleted == p.deleted + LeftBy(l)
  {
  }

  lemma LeftNext(labels: seq<Label>, t: nat)
    requires t < |labels|
    ensures Left(labels[..t + 1]) == Left(labels[..t]) + LeftBy(labels[t])
  {
    assert labels[..t + 1][..t] == labels[..t];
  }

  lemma NextInOrder(left: seq<nat>, restarted: seq<nat>, deleted: seq<nat>, more: seq<nat>, deleted': seq<nat>,
                    back: seq<nat>)
    requires left == restarted + deleted && more + deleted' == deleted + back
    ensures left + back == (restarted + more) + deleted'
  {
    assert (restarted + more) + deleted' == restarted + (more + deleted');
    assert restarted + (deleted + back) == (restarted + deleted) + back;
  }

  /** In every run ids are started again in the order in which they were handed back. */
  lemma {:induction false} FirstLeftFirstRestarted(n: nat, run: Run, t: nat)
    requires IsRun(n, run) && t < |run.states|
    ensures Left(run.labels[..t]) == Restarted(run, t) + run.states[t].deleted
  {
    if t > 0 {
      FirstLeftFirstRestarted(n, run, t - 1);
      StepOfRun(n, run, t - 1);
      StepKeepsOrder(run.states[t - 1], run.labels[t - 1]);
      LeftNext(run.labels, t - 1);
      NextInOrder(Left(run.labels[..t - 1]), Restarted(run, t - 1), run.states[t - 1].deleted,
                  RestartedBy(run.states[t - 1], run.labels[t - 1]), run.states[t].deleted,
                  LeftBy(run.labels[t - 1]));
    }
  }
}
