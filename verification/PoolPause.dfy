/** The point of `Pause`: once it returns, no caller's task starts until the pool is
    resumed or grown. */
module PoolPause {
  import opened ThreadPool
  import opened PoolConservation

  function WorkersIn(workers: seq<Worker>, w: Worker): set<nat>
  {
    set tid | 0 <= tid < |workers| && workers[tid] == w
  }

  /** The count is one of distinct workers. */
  lemma {:induction false} CountIsOfWorkers(workers: seq<Worker>, w: Worker)
    ensures |WorkersIn(workers, w)| == N(workers, w)
  {
    if workers != [] {
      var last := |workers| - 1;
      CountIsOfWorkers(workers[..last], w);
      LastWorker(workers, w);
    }
  }

  lemma LastWorker(workers: seq<Worker>, w: Worker)
    requires workers != []
    ensures var last := |workers| - 1;
      |WorkersIn(workers, w)| == |WorkersIn(workers[..last], w)| + if workers[last] == w then 1 else 0
  {
    var last := |workers| - 1;
    var before := WorkersIn(workers[..last], w);
    assert WorkersIn(workers, w) == if workers[last] == w then before + {last} else before;
  }

  lemma {:induction false} SomeWorker(workers: seq<Worker>, w: Worker) returns (tid: nat)
    requires N(workers, w) > 0
    ensures tid < |workers| && workers[tid] == w
  {
    tid := |workers| - 1;
    if workers[tid] != w {
      tid := SomeWorker(workers[..|workers| - 1], w);
    }
  }

  /** Workers that could still start something are no more than the End tasks queued. */
  ghost predicate Quiet(p: Pool)
  {
    p.paused && N(p.workers, Idle) + N(p.workers, Busy) + N(p.workers, HoldingPause) <= Queued(p.queue, End)
  }

  lemma IdleCounts(p: Pool, tid: nat)
    requires Is(p, tid, Idle)
    ensures N(p.workers, Idle) > 0
  {
    SetCounts(p.workers, tid, Idle, Idle);
  }

  /** In a quiet pool nobody starts a caller's task. */
  lemma QuietStartsNothing(p: Pool, l: Label)
    requires Inv(p) && Quiet(p) && Enabled(p, l)
    ensures l.Pop? ==> p.queue[l.i].kind != User
  {
    if l.Pop? {
      IdleCounts(p, l.tid);
      EndsOnTop(p.queue, l.i);
    }
  }

  /** What a step other than resuming or starting a thread does to the sum of workers
      that could start something, against the End tasks queued. */
  lemma QuietStays(p: Pool, l: Label)
    requires Inv(p) && Quiet(p) && Enabled(p, l) && !l.CallResume? && !l.Reuse? && !l.Spawn?
    ensures Quiet(Apply(p, l))
  {
    QuietStartsNothing(p, l);
    StepMoves(p, l);
    StepQueue(p, l, End);
    var m := MoveOf(p, l);
    QuietMove(p.workers, m);
  }

  function CouldStart(w: Worker): nat
  {
    if w == Idle || w == Busy || w == HoldingPause then 1 else 0
  }

  lemma QuietMove(workers: seq<Worker>, m: Move)
    requires m.Change? ==> m.tid < |workers| && workers[m.tid] == m.before
    ensures var after := Moved(workers, m);
      N(after, Idle) + N(after, Busy) + N(after, HoldingPause)
      == N(workers, Idle) + N(workers, Busy) + N(workers, HoldingPause) + match m
         case Stay => 0
         case Start => 1
         case Change(_, x, y) => CouldStart(y) - CouldStart(x)
  {
    MoveCounts(workers, m, Idle);
    MoveCounts(workers, m, Busy);
    MoveCounts(workers, m, HoldingPause);
  }

  // ----- From the call of Pause to its return -----------------------------------------------

  /** `Pause` was called at step `a` and returns at step `b`. */
  ghost predicate PauseCall(run: Run, a: nat, b: nat)
  {
    && a < b < |run.labels|
    && run.labels[a].CallPause? && run.labels[b].Return?
    && forall i | a < i < b :: !run.labels[i].Return?
  }

  /** Every Pause task run so far has blocked a worker. */
  ghost predicate BlockedSince(p: Pool, before: Pool)
  {
    && p.control.Pausing? && p.total == before.total
    && N(p.workers, Blocked) + p.control.push + Queued(p.queue, Pause) + N(p.workers, HoldingPause)
       == N(before.workers, Blocked) + p.total
  }

  lemma PausingControl(p: Pool, l: Label)
    requires Enabled(p, l) && p.control.Pausing? && !l.Return?
    ensures Apply(p, l).control.Pausing? && Apply(p, l).total == p.total
    ensures Apply(p, l).control.push == p.control.push - if l.PushPause? then 1 else 0
  {
  }

  lemma PausingCounts(p: Pool, l: Label)
    requires Inv(p) && Enabled(p, l) && p.control.Pausing?
    ensures N(Apply(p, l).workers, Blocked) + N(Apply(p, l).workers, HoldingPause) + Queued(Apply(p, l).queue, Pause)
      == N(p.workers, Blocked) + N(p.workers, HoldingPause) + Queued(p.queue, Pause) + if l.PushPause? then 1 else 0
  {
    StepWorkers(p, l, Blocked);
    StepWorkers(p, l, HoldingPause);
    StepQueue(p, l, Pause);
  }

  lemma PausingStep(p: Pool, l: Label, before: Pool)
    requires Inv(p) && Enabled(p, l) && BlockedSince(p, before) && !l.Return?
    ensures BlockedSince(Apply(p, l), before)
  {
    PausingControl(p, l);
    PausingCounts(p, l);
  }

  lemma {:induction false} WaitingSince(n: nat, run: Run, a: nat, t: nat)
    requires IsRun(n, run) && a < t < |run.states| && run.labels[a].CallPause?
    requires forall i | a < i < t :: !run.labels[i].Return?
    ensures BlockedSince(run.states[t], run.states[a])
  {
    RunKeeps(n, run, t - 1);
    StepOfRun(n, run, t - 1);
    if t > a + 1 {
      WaitingSince(n, run, a, t - 1);
      PausingStep(run.states[t - 1], run.labels[t - 1], run.states[a]);
    }
  }

  /** When `Pause` returns, `m_total_threads` more workers are blocked than when it was
      called: exactly that many distinct workers, if none was still blocked from before. */
  lemma PauseBlocks(n: nat, run: Run, a: nat, b: nat)
    requires IsRun(n, run) && PauseCall(run, a, b)
    ensures |WorkersIn(run.states[b + 1].workers, Blocked)|
      == |WorkersIn(run.states[a].workers, Blocked)| + run.states[b + 1].total
    ensures Quiet(run.states[b + 1]) && run.states[b + 1].control.Ready?
  {
    RunKeeps(n, run, b);
    RunKeeps(n, run, b + 1);
    WaitingSince(n, run, a, b);
    StepOfRun(n, run, b);
    CountIsOfWorkers(run.states[b + 1].workers, Blocked);
    CountIsOfWorkers(run.states[a].workers, Blocked);
  }

  // ----- Until the pool is resumed or grown ----------------------------------------------------

  /** The step resumes the pool or starts to grow it. */
  predicate Releases(p: Pool, l: Label)
  {
    l.CallResume? || (l.CallSetNumThreads? && l.n > p.total)
  }

  ghost predicate Unreleased(run: Run, b: nat, t: nat)
  {
    t <= |run.labels| < |run.states| && forall i | b < i < t :: !Releases(run.states[i], run.labels[i])
  }

  lemma HeldStep(p: Pool, l: Label)
    requires Inv(p) && Enabled(p, l) && Quiet(p) && !p.control.Growing? && !Releases(p, l)
    ensures Quiet(Apply(p, l)) && !Apply(p, l).control.Growing?
    ensures WorkersIn(p.workers, Blocked) <= WorkersIn(Apply(p, l).workers, Blocked)
  {
    QuietStays(p, l);
  }

  lemma {:induction false} PauseHolds(n: nat, run: Run, a: nat, b: nat, t: nat)
    requires IsRun(n, run) && PauseCall(run, a, b) && b < t < |run.states| && Unreleased(run, b, t)
    ensures Quiet(run.states[t]) && !run.states[t].control.Growing?
    ensures WorkersIn(run.states[b + 1].workers, Blocked) <= WorkersIn(run.states[t].workers, Blocked)
  {
    PauseBlocks(n, run, a, b);
    if t > b + 1 {
      PauseHolds(n, run, a, b, t - 1);
      RunKeeps(n, run, t - 1);
      StepOfRun(n, run, t - 1);
      HeldStep(run.states[t - 1], run.labels[t - 1]);
    }
  }

  /** Once `Pause` has returned, no LOW, MEDIUM or HIGH task starts before `Resume` or a
      growing `SetNumThreads` is called, whatever End tasks are still queued, whatever
      tasks are added and however often the pool is shrunk; and the workers it blocked
      stay blocked. */
  lemma PauseIsSafe(n: nat, run: Run, a: nat, b: nat, t: nat)
    requires IsRun(n, run) && PauseCall(run, a, b) && b < t < |run.labels| && Unreleased(run, b, t)
    ensures run.labels[t].Pop? ==>
      run.labels[t].i < |run.states[t].queue| && run.states[t].queue[run.labels[t].i].kind != User
    ensures WorkersIn(run.states[b + 1].workers, Blocked) <= WorkersIn(run.states[t].workers, Blocked)
  {
    PauseHolds(n, run, a, b, t);
    RunKeeps(n, run, t);
    StepOfRun(n, run, t);
    QuietStartsNothing(run.states[t], run.labels[t]);
  }

  // ----- Pause does not wait for nothing -------------------------------------------------------

  lemma WorkerCanStep(p: Pool) returns (l: Label)
    requires N(p.workers, Idle) + N(p.workers, Busy) + N(p.workers, HoldingEnd) + N(p.workers, HoldingPause) > 0
    requires p.queue != []
    ensures Enabled(p, l) && (l.Pop? || l.FinishTask? || l.RunEnd? || l.RunPause?)
  {
    if N(p.workers, HoldingPause) > 0 {
      var tid := SomeWorker(p.workers, HoldingPause);
      l := RunPause(tid);
    } else if N(p.workers, HoldingEnd) > 0 {
      var tid := SomeWorker(p.workers, HoldingEnd);
      l := RunEnd(tid);
    } else if N(p.workers, Busy) > 0 {
      var tid := SomeWorker(p.workers, Busy);
      l := FinishTask(tid);
    } else {
      var tid := SomeWorker(p.workers, Idle);
      var i := TopExists(p.queue);
      l := Pop(tid, i);
    }
  }

  /** If no worker was still blocked when it was called, some step towards its return is
      always possible while `Pause` waits. */
  lemma PauseCanStep(n: nat, run: Run, a: nat, t: nat) returns (l: Label)
    requires IsRun(n, run) && a < t < |run.states| && run.labels[a].CallPause?
    requires forall i | a < i < t :: !run.labels[i].Return?
    requires N(run.states[a].workers, Blocked) == 0
    ensures Enabled(run.states[t], l) && !l.AddTask?
  {
    var p := run.states[t];
    RunKeeps(n, run, t);
    WaitingSince(n, run, a, t);
    if p.control.push > 0 {
      l := PushPause(0);
    } else if p.control.acquire == 0 {
      l := Return;
    } else if p.sem > 0 {
      l := Acquire;
    } else if N(p.workers, HoldingPause) > 0 {
      var tid := SomeWorker(p.workers, HoldingPause);
      l := RunPause(tid);
    } else {
      l := WorkerCanStep(p);
    }
  }

  // ----- How long Pause waits once it has pushed its tasks -----------------------------------------

  /** `Pause` has pushed all its tasks and waits for them. */
  predicate Waiting(p: Pool)
  {
    p.control.Pausing? && p.control.push == 0
  }

  /** How many steps are left at most until `Pause` returns. */
  function PauseRemaining(p: Pool): nat
    requires p.control.Pausing?
  {
    WaitRank(p.workers) + p.control.acquire
  }

  function WaitRank(workers: seq<Worker>): nat
  {
    4 * N(workers, Busy) + 3 * N(workers, Idle) + 2 * (N(workers, HoldingEnd) + N(workers, HoldingPause))
    + N(workers, Finishing)
  }

  function PauseRank(w: Worker): nat
  {
    match w
    case Busy => 4
    case Idle => 3
    case HoldingEnd | HoldingPause => 2
    case Finishing => 1
    case Blocked | Gone => 0
  }

  lemma WaitRankMove(workers: seq<Worker>, m: Move)
    requires m.Change? && m.tid < |workers| && workers[m.tid] == m.before
    ensures WaitRank(Moved(workers, m)) == WaitRank(workers) + PauseRank(m.after) - PauseRank(m.before)
  {
    MoveCounts(workers, m, Idle);
    MoveCounts(workers, m, Busy);
    MoveCounts(workers, m, HoldingEnd);
    MoveCounts(workers, m, HoldingPause);
    MoveCounts(workers, m, Finishing);
  }

  /** While `Pause` waits, workers that pop find one of the pool's own tasks. */
  lemma WaitingPopsOwn(p: Pool, before: Pool, l: Label)
    requires Inv(p) && Waiting(p) && BlockedSince(p, before) && Enabled(p, l)
    ensures l.Pop? ==> p.queue[l.i].kind != User
  {
    if l.Pop? {
      IdleCounts(p, l.tid);
      EndsOnTop(p.queue, l.i);
    }
  }

  lemma WaitingMoves(p: Pool, l: Label)
    requires Inv(p) && Waiting(p) && Enabled(p, l) && (l.Pop? ==> p.queue[l.i].kind != User)
    ensures MoveOf(p, l).Change? ==> PauseRank(MoveOf(p, l).after) < PauseRank(MoveOf(p, l).before)
    ensures MoveOf(p, l).Change? || l.AddTask? || l.Acquire? || l.Return?
    ensures !MoveOf(p, l).Start?
  {
  }

  lemma WaitingAdvances(p: Pool, before: Pool, l: Label)
    requires Inv(p) && Waiting(p) && BlockedSince(p, before) && Enabled(p, l) && !l.Return?
    ensures Waiting(Apply(p, l))
    ensures l.AddTask? ==> PauseRemaining(Apply(p, l)) == PauseRemaining(p)
    ensures !l.AddTask? ==> PauseRemaining(Apply(p, l)) < PauseRemaining(p)
  {
    WaitingPopsOwn(p, before, l);
    WaitingMoves(p, l);
    StepMoves(p, l);
    if MoveOf(p, l).Change? {
      WaitRankMove(p.workers, MoveOf(p, l));
    }
  }

  /** In every run, once `Pause` has pushed its tasks it waits for at most `PauseRemaining`
      steps other than additions of tasks; by `PauseCanStep` it does not wait for nothing. */
  lemma {:induction false} PauseEnds(n: nat, run: Run, a: nat, t: nat, now: nat)
    requires IsRun(n, run) && a < t <= now < |run.states| && run.labels[a].CallPause?
    requires forall i | a < i < now :: !run.labels[i].Return?
    requires Waiting(run.states[t])
    ensures Waiting(run.states[now])
    ensures OwnSteps(run, t, now) + PauseRemaining(run.states[now]) <= PauseRemaining(run.states[t])
  {
    if now > t {
      PauseEnds(n, run, a, t, now - 1);
      RunKeeps(n, run, now - 1);
      StepOfRun(n, run, now - 1);
      WaitingSince(n, run, a, now - 1);
      WaitingAdvances(run.states[now - 1], run.states[a], run.labels[now - 1]);
    }
  }

  // ----- Resume -----------------------------------------------------------------------------------

  /** The last of the calls of `Pause` and `Resume` was one of `Pause`. */
  predicate PausedLast(labels: seq<Label>)
  {
    labels != [] && match labels[|labels| - 1]
      case CallPause => true
      case CallResume => false
      case _ => PausedLast(labels[..|labels| - 1])
  }

  /** In every run the pool is paused exactly if `Pause` was called and `Resume` was not called
      since. */
  lemma {:induction false} PausedExactly(n: nat, run: Run, t: nat)
    requires IsRun(n, run) && t < |run.states|
    ensures run.states[t].paused <==> PausedLast(run.labels[..t])
  {
    if t > 0 {
      PausedExactly(n, run, t - 1);
      StepOfRun(n, run, t - 1);
      assert run.labels[..t][..t - 1] == run.labels[..t - 1];
    }
  }

  lemma NobodyBlocks(p: Pool, l: Label)
    requires Enabled(p, l) && !p.paused
    ensures WorkersIn(Apply(p, l).workers, Blocked) <= WorkersIn(p.workers, Blocked)
    ensures !l.CallPause? ==> !Apply(p, l).paused
  {
  }

  /** After `Resume`, until `Pause` is called again, no worker becomes blocked, and every worker
      that still is can go on to wait for tasks at any time; it stays blocked only until it
      does. */
  lemma {:induction false} ResumeFrees(n: nat, run: Run, a: nat, t: nat)
    requires IsRun(n, run) && a < t < |run.states| && run.labels[a].CallResume?
    requires forall i | a < i < t :: !run.labels[i].CallPause?
    ensures WorkersIn(run.states[t].workers, Blocked) <= WorkersIn(run.states[a].workers, Blocked)
    ensures !run.states[t].paused
    ensures forall tid: nat | Is(run.states[t], tid, Blocked) ::
      Enabled(run.states[t], Unblock(tid)) && Is(Apply(run.states[t], Unblock(tid)), tid, Idle)
  {
    StepOfRun(n, run, t - 1);
    if t > a + 1 {
      ResumeFrees(n, run, a, t - 1);
      NobodyBlocks(run.states[t - 1], run.labels[t - 1]);
    }
  }
}
