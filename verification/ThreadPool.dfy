/** The thread pool of framework/src/thread_pool.cpp over the queues of
    framework/include/waitable_queue.hpp: workers that pop tasks, and one thread that
    pauses, resumes and resizes the pool by pushing tasks of its own. Every locked
    region is one step. */
module ThreadPool {
  const CRITICAL: nat := 4

  /** A caller's task, or one that makes a worker leave (`EndThreadTask`) or block
      (`PauseThreadTask`). */
  datatype Kind = User | End | Pause

  datatype PoolTask = PoolTask(kind: Kind, priority: nat, stamp: nat)

  /** `TPTask::operator<`; its product and sum of booleans are an "and" and an "or". */
  predicate Less(a: PoolTask, b: PoolTask)
  {
    (a.stamp < b.stamp && a.priority == b.priority) || a.priority < b.priority
  }

  /** `std::priority_queue` keeps on top an element that is less than no other. */
  predicate OnTop(queue: seq<PoolTask>, i: nat)
  {
    i < |queue| && forall j | 0 <= j < |queue| :: !Less(queue[i], queue[j])
  }

  function Without(queue: seq<PoolTask>, i: nat): seq<PoolTask>
    requires i < |queue|
  {
    queue[..i] + queue[i + 1..]
  }

  /** What worker loop `tid` is doing: waiting in `Pop`, running a caller's task, holding
      a special task it has not run yet, blocked on the condition variable, out of its
      loop, or having handed its id back. */
  datatype Worker = Idle | Busy | HoldingEnd | HoldingPause | Blocked | Finishing | Gone

  /** What the controlling thread is doing: nothing, or inside a call with so many tasks
      left to push, releases left to acquire, threads left to start. */
  datatype Control =
    | Ready
    | Pausing(push: nat, acquire: nat)
    | Growing(target: nat, left: nat, reusing: bool)
    | Shrinking(target: nat, ends: nat)
    | Destroying(ends: nat)

  datatype Pool = Pool(
    /** By thread id, so that `m_tid == |workers|`. */
    workers: seq<Worker>,
    /** `m_deleted_threads`, the next one to pop first. */
    deleted: seq<nat>,
    queue: seq<PoolTask>,
    total: nat,
    paused: bool,
    /** Releases of the semaphore not acquired yet. */
    sem: nat,
    control: Control)

  /** The constructor, about to start its `n` threads. */
  function Init(n: nat): Pool
  {
    Pool([], [], [], n, false, 0, Growing(n, n, true))
  }

  datatype Label =
    | AddTask(priority: nat, stamp: nat)
    | CallPause
    | PushPause(stamp: nat)
    | Acquire
    | CallResume
    | CallSetNumThreads(n: nat)
    | Reuse
    | StopReusing
    | Spawn
    | PushEnd(stamp: nat)
    | CallDestroy
    | Return
    | Pop(tid: nat, i: nat)
    | FinishTask(tid: nat)
    | RunEnd(tid: nat)
    | RunPause(tid: nat)
    | Unblock(tid: nat)
    | Leave(tid: nat)

  predicate Is(p: Pool, tid: nat, w: Worker)
  {
    tid < |p.workers| && p.workers[tid] == w
  }

  /** Tasks may be added at any time, from any thread; the other calls come from one thread. */
  predicate Enabled(p: Pool, l: Label)
  {
    match l
    case AddTask(priority, _) => 1 <= priority <= 3
    case CallPause => p.control.Ready?
    case PushPause(_) => p.control.Pausing? && p.control.push > 0
    case Acquire => p.control.Pausing? && p.control.push == 0 && p.control.acquire > 0 && p.sem > 0
    case CallResume => p.control.Ready?
    case CallSetNumThreads(_) => p.control.Ready?
    case Reuse => p.control.Growing? && p.control.reusing && p.deleted != [] && p.control.left > 0
                  && p.deleted[0] < |p.workers|
    case StopReusing => p.control.Growing? && p.control.reusing && (p.deleted == [] || p.control.left == 0)
    case Spawn => p.control.Growing? && !p.control.reusing && p.control.left > 0
    case PushEnd(_) => (p.control.Shrinking? || p.control.Destroying?) && p.control.ends > 0
    case CallDestroy => p.control.Ready?
    case Return =>
      || (p.control.Pausing? && p.control.push == 0 && p.control.acquire == 0)
      || (p.control.Growing? && !p.control.reusing && p.control.left == 0)
      || (p.control.Shrinking? && p.control.ends == 0)
    case Pop(tid, i) => Is(p, tid, Idle) && OnTop(p.queue, i)
    case FinishTask(tid) => Is(p, tid, Busy)
    case RunEnd(tid) => Is(p, tid, HoldingEnd)
    case RunPause(tid) => Is(p, tid, HoldingPause)
    case Unblock(tid) => Is(p, tid, Blocked) && !p.paused
    case Leave(tid) => Is(p, tid, Finishing)
  }

  function Push(p: Pool, t: PoolTask): Pool
  {
    p.(queue := p.queue + [t])
  }

  function Set(p: Pool, tid: nat, w: Worker): Pool
    requires tid < |p.workers|
  {
    p.(workers := p.workers[tid := w])
  }

  function Held(t: PoolTask): Worker
  {
    match t.kind
    case User => Busy
    case End => HoldingEnd
    case Pause => HoldingPause
  }

  function Apply(p: Pool, l: Label): Pool
    requires Enabled(p, l)
  {
    match l
    case AddTask(priority, stamp) => Push(p, PoolTask(User, priority, stamp))
    case CallPause => p.(paused := true, control := Pausing(p.total, p.total))
    case PushPause(stamp) =>
      Push(p, PoolTask(Pause, CRITICAL, stamp)).(control := p.control.(push := p.control.push - 1))
    case Acquire => p.(sem := p.sem - 1, control := p.control.(acquire := p.control.acquire - 1))
    case CallResume => p.(paused := false)
    case CallSetNumThreads(n) =>
      p.(control := if n > p.total then Growing(n, n - p.total, true) else Shrinking(n, p.total - n))
    case Reuse =>
      Set(p, p.deleted[0], Idle).(deleted := p.deleted[1..], control := p.control.(left := p.control.left - 1))
    case StopReusing => p.(control := p.control.(reusing := false))
    case Spawn => p.(workers := p.workers + [Idle], control := p.control.(left := p.control.left - 1))
    case PushEnd(stamp) =>
      Push(p, PoolTask(End, CRITICAL, stamp)).(control := p.control.(ends := p.control.ends - 1))
    case CallDestroy => p.(control := Destroying(p.total))
    case Return => p.(total := if p.control.Pausing? then p.total else p.control.target, control := Ready)
    case Pop(tid, i) => Set(p, tid, Held(p.queue[i])).(queue := Without(p.queue, i))
    case FinishTask(tid) => Set(p, tid, Idle)
    case RunEnd(tid) => Set(p, tid, Finishing)
    case RunPause(tid) => Set(p, tid, if p.paused then Blocked else Idle).(sem := p.sem + 1)
    case Unblock(tid) => Set(p, tid, Idle)
    case Leave(tid) => Set(p, tid, Gone).(deleted := p.deleted + [tid])
  }

  datatype Run = Run(states: seq<Pool>, labels: seq<Label>)

  ghost predicate StepAt(run: Run, t: nat)
    requires t < |run.labels| && t + 1 < |run.states|
  {
    Enabled(run.states[t], run.labels[t]) && run.states[t + 1] == Apply(run.states[t], run.labels[t])
  }

  /** A run of any length, with any interleaving of the controller, the workers and
      threads that add tasks. */
  ghost predicate IsRun(n: nat, run: Run)
  {
    && |run.states| == |run.labels| + 1
    && run.states[0] == Init(n)
    && forall t | 0 <= t < |run.labels| :: StepAt(run, t)
  }

  // ----- The priority queue --------------------------------------------------------------

  /** The order is a strict weak one, as the queue needs, with ties only between tasks
      of the same priority and time. */
  lemma OrderIsStrictWeak(a: PoolTask, b: PoolTask, c: PoolTask)
    ensures !Less(a, a)
    ensures Less(a, b) && Less(b, c) ==> Less(a, c)
    ensures !Less(a, b) && !Less(b, a) <==> a.priority == b.priority && a.stamp == b.stamp
  {
  }

  /** A queue that is not empty has a top. */
  lemma {:induction false} TopExists(queue: seq<PoolTask>) returns (i: nat)
    requires queue != []
    ensures OnTop(queue, i)
  {
    if |queue| == 1 {
      i := 0;
    } else {
      var last := |queue| - 1;
      var k := TopExists(queue[..last]);
      i := if Less(queue[k], queue[last]) then last else k;
      forall j | 0 <= j < |queue|
        ensures !Less(queue[i], queue[j])
      {
        if j < last {
          assert !Less(queue[..last][k], queue[..last][j]);
        }
      }
    }
  }

  /** What is popped has the highest priority there is, and is the newest of its priority. */
  lemma PopsHighestNewest(queue: seq<PoolTask>, i: nat)
    requires i < |queue|
    ensures OnTop(queue, i) <==>
      && (forall j | 0 <= j < |queue| :: queue[j].priority <= queue[i].priority)
      && (forall j | 0 <= j < |queue| && queue[j].priority == queue[i].priority :: queue[j].stamp <= queue[i].stamp)
  {
    if OnTop(queue, i) {
      forall j | 0 <= j < |queue|
        ensures queue[j].priority <= queue[i].priority
        ensures queue[j].priority == queue[i].priority ==> queue[j].stamp <= queue[i].stamp
      {
        assert !Less(queue[i], queue[j]);
      }
    }
  }

  // ----- The loops of the controller -------------------------------------------------------

  /** All steps of `AddThreadsToPool` with nothing in between: ids handed back are used
      first, in the order they came, then new ones. */
  function Grown(p: Pool, amount: nat): Pool
    requires forall i | 0 <= i < |p.deleted| :: p.deleted[i] < |p.workers|
    decreases amount
  {
    if amount == 0 then p
    else if p.deleted != [] then
      Grown(Set(p, p.deleted[0], Idle).(deleted := p.deleted[1..]), amount - 1)
    else Grown(p.(workers := p.workers + [Idle]), amount - 1)
  }

  /** What that comes to: the first ids handed back start again, as many as are needed, and
      only the rest are new. */
  lemma {:induction false} GrownIs(p: Pool, amount: nat)
    requires forall i | 0 <= i < |p.deleted| :: p.deleted[i] < |p.workers|
    ensures var g := Grown(p, amount); var k := if amount < |p.deleted| then amount else |p.deleted|;
      && g == p.(workers := g.workers, deleted := p.deleted[k..])
      && |g.workers| == |p.workers| + amount - k
      && forall tid: nat | tid < |g.workers| ::
           g.workers[tid] == if tid < |p.workers| && tid !in p.deleted[..k] then p.workers[tid] else Idle
    decreases amount
  {
    if amount == 0 {
    } else if p.deleted != [] {
      var next := Set(p, p.deleted[0], Idle).(deleted := p.deleted[1..]);
      GrownIs(next, amount - 1);
      var k := if amount < |p.deleted| then amount else |p.deleted|;
      assert p.deleted[1..][..k - 1] == p.deleted[..k][1..];
      assert forall tid :: tid in p.deleted[..k] <==> tid == p.deleted[0] || tid in p.deleted[..k][1..];
    } else {
      GrownIs(p.(workers := p.workers + [Idle]), amount - 1);
    }
  }

  function Ends(stamps: seq<nat>): seq<PoolTask>
  {
    seq(|stamps|, i requires 0 <= i < |stamps| => PoolTask(End, CRITICAL, stamps[i]))
  }

  /** One more End task of the highest priority, 4, for each of the times. */
  ghost predicate EndsAppended(before: seq<PoolTask>, after: seq<PoolTask>, stamps: seq<nat>)
  {
    && |after| == |before| + |stamps| && after[..|before|] == before
    && forall i | 0 <= i < |stamps| :: after[|before| + i] == PoolTask(End, 4, stamps[i])
  }

  /** What `SetNumThreads` comes to with nothing in between. */
  function Resized(p: Pool, n: nat, stamps: seq<nat>): Pool
    requires forall i | 0 <= i < |p.deleted| :: p.deleted[i] < |p.workers|
  {
    if n > p.total then Grown(p, n - p.total).(total := n)
    else p.(queue := p.queue + Ends(stamps), total := n)
  }

  /** The pool as the controlling thread uses it. */
  class Controller {
    var workers: seq<Worker>
    var deleted: seq<nat>
    var queue: seq<PoolTask>
    var total: nat
    var paused: bool
    var sem: nat

    ghost function Value(): Pool
      reads this
    {
      Pool(workers, deleted, queue, total, paused, sem, Ready)
    }

    ghost predicate Valid()
      reads this
    {
      forall i | 0 <= i < |deleted| :: deleted[i] < |workers|
    }

    constructor (n: nat)
      ensures Valid() && Value() == Grown(Pool([], [], [], n, false, 0, Ready), n)
    {
      workers, deleted, queue, total, paused, sem := [], [], [], n, false, 0;
      new;
      AddThreadsToPool(n);
    }

    method AddTask(priority: nat, stamp: nat)
      requires Valid()
      modifies this
      ensures Valid() && Value() == Push(old(Value()), PoolTask(User, priority, stamp))
    {
      queue := queue + [PoolTask(User, priority, stamp)];
    }

    method AddThreadsToPool(amount: nat)
      requires Valid()
      modifies this
      ensures Valid() && Value() == Grown(old(Value()), amount)
    {
      var left := amount;
      while deleted != [] && left > 0
        invariant Valid() && 0 <= left <= amount
        invariant Grown(Value(), left) == Grown(old(Value()), amount)
      {
        workers := workers[deleted[0] := Idle];
        deleted := deleted[1..];
        left := left - 1;
      }
      var i := 0;
      while i < left
        invariant Valid() && 0 <= i <= left && (i < left ==> deleted == [])
        invariant Grown(Value(), left - i) == Grown(old(Value()), amount)
      {
        workers := workers + [Idle];
        i := i + 1;
      }
    }

    method RemoveThreadsFromPool(stamps: seq<nat>)
      requires Valid()
      modifies this
      ensures Valid() && Value() == old(Value()).(queue := old(queue) + Ends(stamps))
      ensures EndsAppended(old(queue), queue, stamps)
    {
      var i := 0;
      while i < |stamps|
        invariant 0 <= i <= |stamps| && Valid()
        invariant Value() == old(Value()).(queue := old(queue) + Ends(stamps[..i]))
      {
        ghost var before := queue;
        queue := queue + [PoolTask(End, CRITICAL, stamps[i])];
        assert Ends(stamps[..i + 1]) == Ends(stamps[..i]) + [PoolTask(End, CRITICAL, stamps[i])];
        assert queue == old(queue) + Ends(stamps[..i + 1]);
        i := i + 1;
      }
      assert stamps[..i] == stamps;
    }

    /** `stamps` are the times at which the End tasks are made. */
    method SetNumThreads(n: nat, stamps: seq<nat>)
      requires Valid() && (n <= total ==> |stamps| == total - n)
      modifies this
      ensures Valid() && Value() == Resized(old(Value()), n, stamps) && total == n
      ensures n <= old(total) ==> EndsAppended(old(queue), queue, stamps)
    {
      if n > total {
        AddThreadsToPool(n - total);
      } else {
        RemoveThreadsFromPool(stamps);
      }
      total := n;
    }

    method Resume()
      requires Valid()
      modifies this
      ensures Valid() && Value() == old(Value()).(paused := false)
    {
      paused := false;
    }
  }
}
