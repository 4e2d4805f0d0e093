/** What every interleaving of the thread pool keeps: worker loops and End tasks balance,
    ids are never lost or given out twice, and a pool that is destroyed comes to rest. */
module PoolConservation {
  import opened ThreadPool

  // ----- Counting ------------------------------------------------------------------------

  /** How many workers are in state `w`. */
  function N(workers: seq<Worker>, w: Worker): nat
  {
    if workers == [] then 0
    else N(workers[..|workers| - 1], w) + if workers[|workers| - 1] == w then 1 else 0
  }

  /** How many tasks of a kind are queued. */
  function Queued(queue: seq<PoolTask>, kind: Kind): nat
  {
    if queue == [] then 0
    else Queued(queue[..|queue| - 1], kind) + if queue[|queue| - 1].kind == kind then 1 else 0
  }

  lemma {:induction false} QueuedPush(queue: seq<PoolTask>, t: PoolTask, kind: Kind)
    ensures Queued(queue + [t], kind) == Queued(queue, kind) + if t.kind == kind then 1 else 0
  {
    assert (queue + [t])[..|queue|] == queue;
  }

  lemma {:induction false} QueuedPop(queue: seq<PoolTask>, i: nat, kind: Kind)
    requires i < |queue|
    ensures Queued(queue, kind) == Queued(Without(queue, i), kind) + if queue[i].kind == kind then 1 else 0
  {
    var last := |queue| - 1;
    if i == last {
      assert Without(queue, i) == queue[..last];
    } else {
      QueuedPop(queue[..last], i, kind);
      assert Without(queue, i) == Without(queue[..last], i) + [queue[last]];
      QueuedPush(Without(queue[..last], i), queue[last], kind);
    }
  }

  lemma {:induction false} QueuedSome(queue: seq<PoolTask>, kind: Kind)
    ensures Queued(queue, kind) > 0 <==> exists i :: 0 <= i < |queue| && queue[i].kind == kind
  {
    if queue != [] {
      var last := |queue| - 1;
      QueuedSome(queue[..last], kind);
      if Queued(queue[..last], kind) > 0 {
        var i :| 0 <= i < last && queue[..last][i].kind == kind;
        assert queue[i].kind == kind;
      }
      if exists i :: 0 <= i < |queue| && queue[i].kind == kind {
        var i :| 0 <= i < |queue| && queue[i].kind == kind;
        if i < last {
          assert queue[..last][i].kind == kind;
        }
      }
    }
  }

  lemma {:induction false} SetCounts(workers: seq<Worker>, tid: nat, w: Worker, v: Worker)
    requires tid < |workers|
    ensures N(workers[tid := w], v)
      == N(workers, v) - (if v == workers[tid] then 1 else 0) + (if v == w then 1 else 0)
    ensures N(workers, workers[tid]) > 0
  {
    var last := |workers| - 1;
    if tid == last {
      assert workers[tid := w][..last] == workers[..last];
    } else {
      SetCounts(workers[..last], tid, w, v);
      assert workers[tid := w][..last] == workers[..last][tid := w];
    }
  }

  lemma AppendCounts(workers: seq<Worker>, w: Worker, v: Worker)
    ensures N(workers + [w], v) == N(workers, v) + if v == w then 1 else 0
  {
    assert (workers + [w])[..|workers|] == workers;
  }

  /** Worker loops that have not been left. */
  ghost function Live(workers: seq<Worker>): nat
  {
    N(workers, Idle) + N(workers, Busy) + N(workers, HoldingEnd) + N(workers, HoldingPause) + N(workers, Blocked)
  }

  // ----- The invariant -----------------------------------------------------------------------

  /** How many worker loops the controller has asked for so far, not counting those an
      End task is meant for. */
  function Wanted(p: Pool): int
  {
    match p.control
    case Ready => p.total
    case Pausing(_, _) => p.total
    case Growing(target, left, _) => target - left
    case Shrinking(target, ends) => target + ends
    case Destroying(ends) => ends
  }

  /** End tasks queued or in hand. */
  ghost function EndsInFlight(p: Pool): nat
  {
    Queued(p.queue, End) + N(p.workers, HoldingEnd)
  }

  ghost predicate Balanced(p: Pool)
  {
    Live(p.workers) == Wanted(p) + EndsInFlight(p)
  }

  /** `m_deleted_threads` holds exactly the ids of the loops that are gone, each once. */
  ghost predicate IdsKept(p: Pool)
  {
    && (forall i, j | 0 <= i < j < |p.deleted| :: p.deleted[i] != p.deleted[j])
    && (forall i | 0 <= i < |p.deleted| :: Is(p, p.deleted[i], Gone))
    && (forall tid: nat | Is(p, tid, Gone) :: tid in p.deleted)
  }

  /** The pool's own tasks are more urgent than any caller's. */
  predicate PrioritiesOk(queue: seq<PoolTask>)
  {
    forall i | 0 <= i < |queue| ::
      if queue[i].kind == User then 1 <= queue[i].priority <= 3 else queue[i].priority == CRITICAL
  }

  /** Pause tasks still to be pushed, queued, in hand, and releases not acquired add up to
      what `Pause` waits for; there are none outside `Pause`. */
  ghost predicate PauseAccounted(p: Pool)
  {
    var inFlight := Queued(p.queue, Pause) + N(p.workers, HoldingPause) + p.sem;
    if p.control.Pausing? then
      p.control.push + inFlight == p.control.acquire <= p.total && p.paused
    else inFlight == 0
  }

  ghost predicate Inv(p: Pool)
  {
    Balanced(p) && IdsKept(p) && PrioritiesOk(p.queue) && PauseAccounted(p)
  }

  // ----- What a step changes -------------------------------------------------------------------

  /** What a step does to the workers. */
  datatype Move = Stay | Start | Change(tid: nat, before: Worker, after: Worker)

  function MoveOf(p: Pool, l: Label): Move
    requires Enabled(p, l)
  {
    match l
    case Reuse => Change(p.deleted[0], Gone, Idle)
    case Spawn => Start
    case Pop(tid, i) => Change(tid, Idle, Held(p.queue[i]))
    case FinishTask(tid) => Change(tid, Busy, Idle)
    case RunEnd(tid) => Change(tid, HoldingEnd, Finishing)
    case RunPause(tid) => Change(tid, HoldingPause, if p.paused then Blocked else Idle)
    case Unblock(tid) => Change(tid, Blocked, Idle)
    case Leave(tid) => Change(tid, Finishing, Gone)
    case _ => Stay
  }

  function Moved(workers: seq<Worker>, m: Move): seq<Worker>
    requires m.Change? ==> m.tid < |workers|
  {
    match m
    case Stay => workers
    case Start => workers + [Idle]
    case Change(tid, _, after) => workers[tid := after]
  }

  lemma StepMoves(p: Pool, l: Label)
    requires Enabled(p, l) && IdsKept(p)
    ensures MoveOf(p, l).Change? ==> Is(p, MoveOf(p, l).tid, MoveOf(p, l).before)
    ensures Apply(p, l).workers == Moved(p.workers, MoveOf(p, l))
  {
    assert l.Reuse? ==> Is(p, p.deleted[0], Gone);
  }

  function Gain(m: Move, v: Worker): int
  {
    match m
    case Stay => 0
    case Start => if v == Idle then 1 else 0
    case Change(_, before, after) => (if v == after then 1 else 0) - (if v == before then 1 else 0)
  }

  lemma MoveCounts(workers: seq<Worker>, m: Move, v: Worker)
    requires m.Change? ==> m.tid < |workers| && workers[m.tid] == m.before
    ensures N(Moved(workers, m), v) == N(workers, v) + Gain(m, v)
    ensures m.Change? ==> N(workers, m.before) > 0
  {
    match m
    case Stay =>
    case Start => AppendCounts(workers, Idle, v);
    case Change(tid, _, after) => SetCounts(workers, tid, after, v);
  }

  lemma StepWorkers(p: Pool, l: Label, v: Worker)
    requires Enabled(p, l) && IdsKept(p)
    ensures N(Apply(p, l).workers, v) == N(p.workers, v) + Gain(MoveOf(p, l), v)
  {
    StepMoves(p, l);
    MoveCounts(p.workers, MoveOf(p, l), v);
  }

  function QueueGain(p: Pool, l: Label, kind: Kind): int
    requires Enabled(p, l)
  {
    match l
    case AddTask(_, _) => if kind == User then 1 else 0
    case PushPause(_) => if kind == Pause then 1 else 0
    case PushEnd(_) => if kind == End then 1 else 0
    case Pop(_, i) => if p.queue[i].kind == kind then -1 else 0
    case _ => 0
  }

  lemma StepQueue(p: Pool, l: Label, kind: Kind)
    requires Enabled(p, l)
    ensures Queued(Apply(p, l).queue, kind) == Queued(p.queue, kind) + QueueGain(p, l, kind)
  {
    match l
    case AddTask(priority, stamp) => QueuedPush(p.queue, PoolTask(User, priority, stamp), kind);
    case PushPause(stamp) => QueuedPush(p.queue, PoolTask(Pause, CRITICAL, stamp), kind);
    case PushEnd(stamp) => QueuedPush(p.queue, PoolTask(End, CRITICAL, stamp), kind);
    case Pop(_, i) => QueuedPop(p.queue, i, kind);
    case _ =>
  }

  // ----- Every step keeps the invariant ----------------------------------------------------------

  function Alive(w: Worker): nat
  {
    if w == Finishing || w == Gone then 0 else 1
  }

  lemma LiveMove(workers: seq<Worker>, m: Move)
    requires m.Change? ==> m.tid < |workers| && workers[m.tid] == m.before
    ensures Live(Moved(workers, m)) == Live(workers) + match m
      case Stay => 0
      case Start => 1
      case Change(_, before, after) => Alive(after) - Alive(before)
  {
    MoveCounts(workers, m, Idle);
    MoveCounts(workers, m, Busy);
    MoveCounts(workers, m, HoldingEnd);
    MoveCounts(workers, m, HoldingPause);
    MoveCounts(workers, m, Blocked);
    MoveCounts(workers, m, Finishing);
  }

  lemma LiveStep(p: Pool, l: Label)
    requires Enabled(p, l) && IdsKept(p)
    ensures Live(Apply(p, l).workers)
      == Live(p.workers) + if l.Reuse? || l.Spawn? then 1 else if l.RunEnd? then -1 else 0
  {
    StepMoves(p, l);
    LiveMove(p.workers, MoveOf(p, l));
  }

  lemma EndsGain(p: Pool, l: Label)
    requires Enabled(p, l) && IdsKept(p)
    ensures Gain(MoveOf(p, l), HoldingEnd) + QueueGain(p, l, End)
         == if l.PushEnd? then 1 else if l.RunEnd? then -1 else 0
  {
  }

  lemma EndsStep(p: Pool, l: Label)
    requires Enabled(p, l) && IdsKept(p)
    ensures EndsInFlight(Apply(p, l)) == EndsInFlight(p) + if l.PushEnd? then 1 else if l.RunEnd? then -1 else 0
  {
    StepWorkers(p, l, HoldingEnd);
    StepQueue(p, l, End);
    EndsGain(p, l);
  }

  lemma WantedStep(p: Pool, l: Label)
    requires Enabled(p, l)
    ensures Wanted(Apply(p, l)) == Wanted(p) + if l.Reuse? || l.Spawn? then 1 else if l.PushEnd? then -1 else 0
  {
  }

  lemma BalancedKeeps(p: Pool, l: Label)
    requires Enabled(p, l) && Balanced(p) && IdsKept(p)
    ensures Balanced(Apply(p, l))
  {
    LiveStep(p, l);
    EndsStep(p, l);
    WantedStep(p, l);
  }

  lemma PauseKeeps(p: Pool, l: Label)
    requires Enabled(p, l) && IdsKept(p) && PauseAccounted(p)
    ensures PauseAccounted(Apply(p, l))
  {
    StepWorkers(p, l, HoldingPause);
    StepQueue(p, l, Pause);
  }

  lemma PrioritiesKeep(p: Pool, l: Label)
    requires Enabled(p, l) && PrioritiesOk(p.queue)
    ensures PrioritiesOk(Apply(p, l).queue)
  {
  }

  lemma ReuseKeepsIds(p: Pool)
    requires IdsKept(p) && p.deleted != []
    ensures p.deleted[0] < |p.workers| && IdsKept(Set(p, p.deleted[0], Idle).(deleted := p.deleted[1..]))
  {
    assert Is(p, p.deleted[0], Gone);
    var p' := Set(p, p.deleted[0], Idle).(deleted := p.deleted[1..]);
    forall i | 0 <= i < |p'.deleted|
      ensures p'.deleted[i] == p.deleted[i + 1] && Is(p', p'.deleted[i], Gone)
    {
      assert Is(p, p.deleted[i + 1], Gone);
    }
    forall tid: nat | Is(p', tid, Gone)
      ensures tid in p'.deleted
    {
      assert Is(p, tid, Gone) && tid != p.deleted[0];
    }
  }

  /** The ids depend on nothing but who is gone and what was handed back. */
  lemma IdsFrame(p: Pool, p': Pool)
    requires IdsKept(p) && p'.deleted == p.deleted && forall tid: nat :: Is(p', tid, Gone) <==> Is(p, tid, Gone)
    ensures IdsKept(p')
  {
  }

  lemma IdsKeep(p: Pool, l: Label)
    requires Enabled(p, l) && IdsKept(p)
    ensures IdsKept(Apply(p, l))
  {
    var p' := Apply(p, l);
    match l
    case Reuse =>
      ReuseKeepsIds(p);
      IdsFrame(Set(p, p.deleted[0], Idle).(deleted := p.deleted[1..]), p');
    case Leave(tid) =>
      LeaveKeepsIds(p, tid);
    case _ =>
      forall tid: nat
        ensures Is(p', tid, Gone) <==> Is(p, tid, Gone)
      {
      }
      IdsFrame(p, p');
  }

  lemma LeaveKeepsIds(p: Pool, tid: nat)
    requires IdsKept(p) && Is(p, tid, Finishing)
    ensures IdsKept(Set(p, tid, Gone).(deleted := p.deleted + [tid]))
  {
    var p' := Set(p, tid, Gone).(deleted := p.deleted + [tid]);
    forall i | 0 <= i < |p.deleted|
      ensures p.deleted[i] != tid && Is(p', p'.deleted[i], Gone)
    {
      assert Is(p, p.deleted[i], Gone);
    }
    forall u: nat | Is(p', u, Gone)
      ensures u in p'.deleted
    {
      assert u != tid ==> Is(p, u, Gone);
      assert p'.deleted[|p.deleted|] == tid;
    }
  }

  lemma StepKeeps(p: Pool, l: Label)
    requires Enabled(p, l) && Inv(p)
    ensures Inv(Apply(p, l))
  {
    BalancedKeeps(p, l);
    PauseKeeps(p, l);
    PrioritiesKeep(p, l);
    IdsKeep(p, l);
  }

  lemma StepOfRun(n: nat, run: Run, t: nat)
    requires IsRun(n, run) && t < |run.labels|
    ensures Enabled(run.states[t], run.labels[t])
    ensures run.states[t + 1] == Apply(run.states[t], run.labels[t])
  {
    assert StepAt(run, t);
  }

  lemma NextKeeps(n: nat, run: Run, t: nat)
    requires IsRun(n, run) && t < |run.labels| && Inv(run.states[t])
    ensures Inv(run.states[t + 1])
  {
    StepOfRun(n, run, t);
    StepKeeps(run.states[t], run.labels[t]);
  }

  lemma {:induction false} RunKeeps(n: nat, run: Run, t: nat)
    requires IsRun(n, run) && t < |run.states|
    ensures Inv(run.states[t])
  {
    if t > 0 {
      RunKeeps(n, run, t - 1);
      NextKeeps(n, run, t - 1);
    }
  }

  /** In every state of every run, worker loops balance against the threads asked for and
      the End tasks in flight; between calls of the controller there are exactly
      `m_total_threads` of them plus one for each End task queued or in hand. */
  lemma LoopsBalance(n: nat, run: Run, t: nat)
    requires IsRun(n, run) && t < |run.states|
    ensures Live(run.states[t].workers) == Wanted(run.states[t]) + EndsInFlight(run.states[t])
    ensures run.states[t].control.Ready? ==>
      Live(run.states[t].workers) == run.states[t].total + EndsInFlight(run.states[t])
  {
    RunKeeps(n, run, t);
  }

  /** The ids of loops that run or finish and the ids handed back are disjoint, without
      duplicates, and together exactly `[0, m_tid)`. */
  lemma IdsPartition(n: nat, run: Run, t: nat)
    requires IsRun(n, run) && t < |run.states|
    ensures var p := run.states[t];
      && (forall i, j | 0 <= i < j < |p.deleted| :: p.deleted[i] != p.deleted[j])
      && (forall tid: nat :: tid in p.deleted <==> tid < |p.workers| && p.workers[tid] == Gone)
  {
    RunKeeps(n, run, t);
    var p := run.states[t];
    assert forall tid: nat :: tid in p.deleted <==> Is(p, tid, Gone);
  }

  // ----- Destruction ---------------------------------------------------------------------------------

  /** All End tasks of the destructor have been pushed and the pool is not paused: what is
      left is to join the threads. */
  predicate Joining(p: Pool)
  {
    p.control == Destroying(0) && !p.paused
  }

  /** How many steps the workers have left before all are gone. */
  ghost function Remaining(workers: seq<Worker>): nat
  {
    4 * (N(workers, Busy) + N(workers, Blocked)) + 3 * N(workers, Idle) + 2 * N(workers, HoldingEnd)
    + N(workers, Finishing)
  }

  function Rank(w: Worker): nat
  {
    match w
    case Idle => 3
    case Busy | Blocked => 4
    case HoldingEnd => 2
    case HoldingPause => 0
    case Finishing => 1
    case Gone => 0
  }

  lemma RemainingMove(workers: seq<Worker>, m: Move)
    requires m.Change? && m.tid < |workers| && workers[m.tid] == m.before
    ensures Remaining(Moved(workers, m)) == Remaining(workers) + Rank(m.after) - Rank(m.before)
  {
    MoveCounts(workers, m, Idle);
    MoveCounts(workers, m, Busy);
    MoveCounts(workers, m, HoldingEnd);
    MoveCounts(workers, m, HoldingPause);
    MoveCounts(workers, m, Blocked);
    MoveCounts(workers, m, Finishing);
  }

  lemma EndsOnTop(queue: seq<PoolTask>, i: nat)
    requires PrioritiesOk(queue) && Queued(queue, End) + Queued(queue, Pause) > 0 && OnTop(queue, i)
    ensures queue[i].kind != User
  {
    QueuedSome(queue, End);
    QueuedSome(queue, Pause);
    PopsHighestNewest(queue, i);
  }

  /** A worker that pops while the destructor waits finds an End task on top. */
  lemma JoiningPopsEnd(p: Pool, tid: nat, i: nat)
    requires Inv(p) && Joining(p) && Enabled(p, Pop(tid, i))
    ensures p.queue[i].kind == End
  {
    SetCounts(p.workers, tid, Idle, Idle);
    EndsOnTop(p.queue, i);
    QueuedSome(p.queue, Pause);
  }

  lemma JoiningMoves(p: Pool, l: Label)
    requires Inv(p) && Joining(p) && Enabled(p, l)
    requires l.Pop? ==> p.queue[l.i].kind == End
    ensures l.AddTask? || MoveOf(p, l).Change?
    ensures MoveOf(p, l).Change? ==> MoveOf(p, l).before != HoldingPause
    ensures MoveOf(p, l).Change? ==> Rank(MoveOf(p, l).after) < Rank(MoveOf(p, l).before)
  {
    if l.RunPause? {
      SetCounts(p.workers, l.tid, Idle, HoldingPause);
    }
  }

  /** While the destructor waits, no caller's task starts; each step of a worker brings it
      nearer to its end, and adding tasks does not set it back. */
  lemma JoiningAdvances(p: Pool, l: Label)
    requires Inv(p) && Joining(p) && Enabled(p, l)
    ensures Joining(Apply(p, l))
    ensures l.Pop? ==> p.queue[l.i].kind == End
    ensures l.AddTask? ==> Remaining(Apply(p, l).workers) == Remaining(p.workers)
    ensures !l.AddTask? ==> Remaining(Apply(p, l).workers) < Remaining(p.workers)
  {
    if l.Pop? {
      JoiningPopsEnd(p, l.tid, l.i);
    }
    JoiningMoves(p, l);
    StepMoves(p, l);
    if MoveOf(p, l).Change? {
      RemainingMove(p.workers, MoveOf(p, l));
    }
  }

  /** It never waits for nothing: until every worker is gone, some worker can step. */
  lemma JoiningCanStep(p: Pool) returns (l: Label)
    requires Inv(p) && Joining(p) && exists tid :: 0 <= tid < |p.workers| && p.workers[tid] != Gone
    ensures Enabled(p, l) && !l.AddTask?
  {
    var tid: nat :| tid < |p.workers| && p.workers[tid] != Gone;
    match p.workers[tid]
    case Idle =>
      SetCounts(p.workers, tid, Idle, Idle);
      QueuedSome(p.queue, End);
      var i := TopExists(p.queue);
      l := Pop(tid, i);
    case Busy => l := FinishTask(tid);
    case HoldingEnd => l := RunEnd(tid);
    case HoldingPause => l := RunPause(tid);
    case Blocked => l := Unblock(tid);
    case Finishing => l := Leave(tid);
  }

  /** How many steps of a run from `t` to `now` are not additions of tasks. */
  function OwnSteps(run: Run, t: nat, now: nat): nat
    requires t <= now <= |run.labels|
  {
    if now == t then 0 else OwnSteps(run, t, now - 1) + if run.labels[now - 1].AddTask? then 0 else 1
  }

  /** In every run, once the destructor of a pool that is not paused waits, at most
      `Remaining` steps of workers are left. */
  lemma {:induction false} DestructionEnds(n: nat, run: Run, t: nat, now: nat)
    requires IsRun(n, run) && t <= now < |run.states| && Joining(run.states[t])
    ensures Joining(run.states[now])
    ensures OwnSteps(run, t, now) + Remaining(run.states[now].workers) <= Remaining(run.states[t].workers)
  {
    if now > t {
      DestructionEnds(n, run, t, now - 1);
      RunKeeps(n, run, now - 1);
      StepOfRun(n, run, now - 1);
      JoiningAdvances(run.states[now - 1], run.labels[now - 1]);
    }
  }

  // ----- Without interference ----------------------------------------------------------------------------

  /** The steps of `AddThreadsToPool`, if nothing comes in between, end where its two
      loops end. */
  lemma GrowingAlone(p: Pool, l: Label)
    requires IdsKept(p) && Enabled(p, l) && (l.Reuse? || l.StopReusing? || l.Spawn?)
    requires p.control.reusing || p.deleted == [] || p.control.left == 0
    ensures var p' := Apply(p, l);
      && p'.control.Growing? && IdsKept(p')
      && (p'.control.reusing || p'.deleted == [] || p'.control.left == 0)
      && Grown(p'.(control := Ready), p'.control.left) == Grown(p.(control := Ready), p.control.left)
  {
    IdsKeep(p, l);
  }
}
