/** The scheduler of framework/src/scheduler.cpp: a queue of due times, a one-shot timer
    armed by hand, and a callback thread for every expiry of the timer. Every locked
    region is one step. */
module Scheduler {
  import opened Types

  // ----- The queue of due times ----------------------------------------------------------

  /** `Task::operator<` turns the order round, so that the top is due first. */
  predicate OnTop(queue: seq<nat>, i: nat)
  {
    i < |queue| && forall j | 0 <= j < |queue| :: queue[i] <= queue[j]
  }

  function TopIndex(queue: seq<nat>): (i: nat)
    requires queue != []
    ensures OnTop(queue, i)
  {
    var last := |queue| - 1;
    if last == 0 then 0
    else
      var k := TopIndex(queue[..last]);
      assert forall j | 0 <= j < last :: queue[k] <= queue[..last][j];
      if queue[last] < queue[k] then last else k
  }

  function Without(queue: seq<nat>, i: nat): (r: seq<nat>)
    requires i < |queue|
    ensures |r| == |queue| - 1 && forall d | d in r :: d in queue
  {
    queue[..i] + queue[i + 1..]
  }

  /** Tasks queued, tasks added and not finished (`m_counter`), callbacks between the two
      locked regions of `RunTask`, the time the timer is armed for, expiries whose
      callback has not taken the lock yet, and the clock. */
  datatype State = State(
    queue: seq<nat>,
    counter: nat,
    inFlight: nat,
    armed: Option<nat>,
    pending: nat,
    now: nat)

  function Init(now: nat): State
  {
    State([], 0, 0, None, 0, now)
  }

  datatype Label =
    | AddTask(due: nat)
    /** The clock goes on. */
    | Tick(now: nat)
    /** The timer expires; the system may merge an expiry with one still pending. */
    | Expire(merged: bool)
    /** The first locked region of `RunTask`. */
    | Enter(i: nat)
    /** The second. */
    | Finish

  predicate Enabled(s: State, l: Label)
  {
    match l
    case AddTask(_) => true
    case Tick(now) => s.now <= now
    case Expire(merged) => s.armed.Some? && s.armed.value <= s.now && (merged ==> s.pending > 0)
    case Enter(i) => s.pending > 0 && (s.queue == [] || OnTop(s.queue, i))
    case Finish => s.inFlight > 0 && s.counter > 0
  }

  /** `StartTimer`. */
  function Started(s: State): State
    requires s.queue != []
  {
    s.(armed := Some(s.queue[TopIndex(s.queue)]))
  }

  function AfterAdd(s: State, due: nat): State
  {
    Started(s.(queue := s.queue + [due], counter := s.counter + 1))
  }

  function AfterEnter(s: State, i: nat): State
    requires s.queue == [] || i < |s.queue|
  {
    if s.queue == [] then s else s.(queue := Without(s.queue, i), inFlight := s.inFlight + 1)
  }

  function AfterFinish(s: State): State
    requires s.inFlight > 0 && s.counter > 0
  {
    var less := s.(counter := s.counter - 1, inFlight := s.inFlight - 1);
    if less.counter != 0 && less.queue != [] then Started(less) else less
  }

  function Apply(s: State, l: Label): State
    requires Enabled(s, l)
  {
    match l
    case AddTask(due) => AfterAdd(s, due)
    case Tick(now) => s.(now := now)
    case Expire(merged) => s.(armed := None, pending := if merged then s.pending else s.pending + 1)
    case Enter(i) => AfterEnter(s.(pending := s.pending - 1), i)
    case Finish => AfterFinish(s)
  }

  datatype Run = Run(states: seq<State>, labels: seq<Label>)

  ghost predicate StepAt(run: Run, t: nat)
    requires t < |run.labels| && t + 1 < |run.states|
  {
    Enabled(run.states[t], run.labels[t]) && run.states[t + 1] == Apply(run.states[t], run.labels[t])
  }

  ghost predicate IsRun(now: nat, run: Run)
  {
    && |run.states| == |run.labels| + 1
    && run.states[0] == Init(now)
    && forall t | 0 <= t < |run.labels| :: StepAt(run, t)
  }

  // ----- No task is stranded ---------------------------------------------------------------

  ghost predicate Inv(s: State)
  {
    && s.counter == |s.queue| + s.inFlight
    && (s.queue != [] ==> s.armed.Some? || s.pending > 0 || s.inFlight > 0)
    && (s.armed.Some? ==> forall d | d in s.queue :: s.armed.value <= d)
  }

  lemma TopIsEarliest(queue: seq<nat>, i: nat)
    requires OnTop(queue, i)
    ensures forall d | d in queue :: queue[i] <= d
  {
  }

  lemma StepKeeps(s: State, l: Label)
    requires Inv(s) && Enabled(s, l)
    ensures Inv(Apply(s, l))
  {
    if l.AddTask? {
      TopIsEarliest(s.queue + [l.due], TopIndex(s.queue + [l.due]));
    } else if l.Finish? && s.queue != [] {
      TopIsEarliest(s.queue, TopIndex(s.queue));
    }
  }

  lemma StepOfRun(now: nat, run: Run, t: nat)
    requires IsRun(now, run) && t < |run.labels|
    ensures Enabled(run.states[t], run.labels[t])
    ensures run.states[t + 1] == Apply(run.states[t], run.labels[t])
  {
    assert StepAt(run, t);
  }

  /** In every state of every run: the counter is the number of tasks queued or running; if
      tasks are queued, the timer is armed, or an expiry is pending, or a callback is
      running that will arm it; and an armed timer is never later than any queued task. */
  lemma {:induction false} NeverStranded(now: nat, run: Run, t: nat)
    requires IsRun(now, run) && t < |run.states|
    ensures var s := run.states[t];
      && s.counter == |s.queue| + s.inFlight
      && (s.queue != [] ==> s.armed.Some? || s.pending > 0 || s.inFlight > 0)
      && (s.armed.Some? ==> forall d | d in s.queue :: s.armed.value <= d)
  {
    if t > 0 {
      NeverStranded(now, run, t - 1);
      StepOfRun(now, run, t - 1);
      StepKeeps(run.states[t - 1], run.labels[t - 1]);
    }
  }

  // ----- What is queued, taken and armed -------------------------------------------------------

  lemma WithoutOne(queue: seq<nat>, i: nat)
    requires i < |queue|
    ensures multiset(Without(queue, i)) + multiset{queue[i]} == multiset(queue)
  {
    assert queue == queue[..i] + [queue[i]] + queue[i + 1..];
  }

  /** The time a step asks for. */
  function AskedBy(l: Label): multiset<nat>
  {
    if l.AddTask? then multiset{l.due} else multiset{}
  }

  /** The time of the task a callback takes. */
  function TakenBy(s: State, l: Label): multiset<nat>
  {
    if l.Enter? && l.i < |s.queue| then multiset{s.queue[l.i]} else multiset{}
  }

  /** The times the first `t` steps asked for. */
  function Asked(run: Run, t: nat): multiset<nat>
    requires t <= |run.labels|
  {
    if t == 0 then multiset{} else Asked(run, t - 1) + AskedBy(run.labels[t - 1])
  }

  /** The times of the tasks that callbacks took in them. */
  function Taken(run: Run, t: nat): multiset<nat>
    requires t <= |run.labels| < |run.states|
  {
    if t == 0 then multiset{} else Taken(run, t - 1) + TakenBy(run.states[t - 1], run.labels[t - 1])
  }

  /** How many tasks they finished. */
  function Finished(run: Run, t: nat): nat
    requires t <= |run.labels|
  {
    if t == 0 then 0 else Finished(run, t - 1) + if run.labels[t - 1].Finish? then 1 else 0
  }

  lemma OtherStepsKeepQueue(s: State, l: Label)
    requires Enabled(s, l) && !l.AddTask? && !l.Enter?
    ensures Apply(s, l).queue == s.queue && TakenBy(s, l) == multiset{} && AskedBy(l) == multiset{}
  {
  }

  lemma StepConserves(s: State, l: Label)
    requires Enabled(s, l)
    ensures multiset(Apply(s, l).queue) + TakenBy(s, l) == multiset(s.queue) + AskedBy(l)
  {
    if l.AddTask? {
      assert multiset(s.queue + [l.due]) == multiset(s.queue) + multiset{l.due};
    } else if l.Enter? {
      if s.queue != [] {
        WithoutOne(s.queue, l.i);
      }
    } else {
      OtherStepsKeepQueue(s, l);
    }
  }

  lemma StepCounts(s: State, l: Label)
    requires Enabled(s, l)
    ensures Apply(s, l).inFlight + (if l.Finish? then 1 else 0) == s.inFlight + |TakenBy(s, l)|
  {
  }

  ghost predicate Conserved(run: Run, t: nat)
    requires t <= |run.labels| < |run.states|
  {
    multiset(run.states[t].queue) + Taken(run, t) == Asked(run, t)
  }

  lemma TakenNext(run: Run, t: nat)
    requires t < |run.labels| < |run.states|
    ensures Taken(run, t + 1) == Taken(run, t) + TakenBy(run.states[t], run.labels[t])
    ensures Asked(run, t + 1) == Asked(run, t) + AskedBy(run.labels[t])
  {
  }

  lemma NextConserved(now: nat, run: Run, t: nat)
    requires IsRun(now, run) && t < |run.labels| && Conserved(run, t)
    ensures Conserved(run, t + 1)
  {
    StepOfRun(now, run, t);
    StepConserves(run.states[t], run.labels[t]);
    TakenNext(run, t);
    Rebalance(multiset(run.states[t].queue), Taken(run, t), multiset(run.states[t + 1].queue),
              TakenBy(run.states[t], run.labels[t]), AskedBy(run.labels[t]));
  }

  lemma {:induction false} ConservedAt(now: nat, run: Run, t: nat)
    requires IsRun(now, run) && t < |run.states|
    ensures Conserved(run, t)
  {
    if t == 0 {
      assert run.states[0].queue == [];
    } else {
      ConservedAt(now, run, t - 1);
      NextConserved(now, run, t - 1);
    }
  }

  /** In every run the tasks queued and those taken are exactly those asked for, each with its
      own time. */
  lemma TasksConserved(now: nat, run: Run, t: nat)
    requires IsRun(now, run) && t < |run.states|
    ensures multiset(run.states[t].queue) + Taken(run, t) == Asked(run, t)
  {
    ConservedAt(now, run, t);
  }

  /** In every run the tasks taken are those running and those finished. */
  lemma {:induction false} TakenAreRun(now: nat, run: Run, t: nat)
    requires IsRun(now, run) && t < |run.states|
    ensures |Taken(run, t)| == run.states[t].inFlight + Finished(run, t)
  {
    if t > 0 {
      TakenAreRun(now, run, t - 1);
      StepOfRun(now, run, t - 1);
      StepCounts(run.states[t - 1], run.labels[t - 1]);
    }
  }

  lemma Rebalance(queue: multiset<nat>, taken: multiset<nat>, queue': multiset<nat>, more: multiset<nat>,
                  asked: multiset<nat>)
    requires queue' + more == queue + asked
    ensures queue' + (taken + more) == (queue + taken) + asked
  {
    assert queue' + (taken + more) == (queue' + more) + taken;
    assert (queue + taken) + asked == (queue + asked) + taken;
  }

  /** How many expiries of the first `t` steps were not merged with one still pending. */
  function Expiries(run: Run, t: nat): nat
    requires t <= |run.labels|
  {
    if t == 0 then 0 else Expiries(run, t - 1) + if run.labels[t - 1] == Expire(false) then 1 else 0
  }

  /** How many callbacks took the lock in them. */
  function Entered(run: Run, t: nat): nat
    requires t <= |run.labels|
  {
    if t == 0 then 0 else Entered(run, t - 1) + if run.labels[t - 1].Enter? then 1 else 0
  }

  /** In every run each expiry that is not merged has one callback, which takes the lock once. */
  lemma {:induction false} ExpiriesAreServed(now: nat, run: Run, t: nat)
    requires IsRun(now, run) && t < |run.states|
    ensures run.states[t].pending + Entered(run, t) == Expiries(run, t)
  {
    if t > 0 {
      ExpiriesAreServed(now, run, t - 1);
      StepOfRun(now, run, t - 1);
    }
  }

  /** The earliest of the queued times. */
  ghost predicate Earliest(queue: seq<nat>, due: nat)
  {
    due in queue && forall d | d in queue :: due <= d
  }

  /** Adding a task, and finishing one while others are queued, arms the timer for the
      earliest of the queued times. */
  lemma ArmsForEarliest(s: State, l: Label)
    requires Inv(s) && Enabled(s, l) && (l.AddTask? || (l.Finish? && s.queue != []))
    ensures Apply(s, l).armed.Some? && Earliest(Apply(s, l).queue, Apply(s, l).armed.value)
  {
    if l.AddTask? {
      TopIsEarliest(s.queue + [l.due], TopIndex(s.queue + [l.due]));
    } else {
      TopIsEarliest(s.queue, TopIndex(s.queue));
    }
  }

  // ----- Due tasks are run ----------------------------------------------------------------------

  /** The steps the scheduler takes on its own. */
  predicate Internal(l: Label)
  {
    l.Expire? || l.Enter? || l.Finish?
  }

  /** A task is running, or one that is queued is due. */
  predicate HasWork(s: State)
  {
    s.inFlight > 0 || exists i :: 0 <= i < |s.queue| && s.queue[i] <= s.now
  }

  /** While a task is running or due, the scheduler can take a step of its own. */
  lemma WorkCanProceed(s: State) returns (l: Label)
    requires Inv(s) && HasWork(s)
    ensures Enabled(s, l) && Internal(l)
  {
    if s.inFlight > 0 {
      l := Finish;
    } else if s.pending > 0 {
      l := Enter(if s.queue == [] then 0 else TopIndex(s.queue));
    } else {
      var i :| 0 <= i < |s.queue| && s.queue[i] <= s.now;
      assert s.queue[i] in s.queue;
      l := Expire(false);
    }
  }

  /** How many steps of its own the scheduler can take before it has nothing left. */
  function Remaining(s: State): nat
  {
    4 * |s.queue| + 3 * s.inFlight + s.pending + if s.armed.Some? then 2 else 0
  }

  lemma WorkAdvances(s: State, l: Label)
    requires Inv(s) && Enabled(s, l) && !l.AddTask?
    ensures Internal(l) ==> Remaining(Apply(s, l)) < Remaining(s)
    ensures l.Tick? ==> Remaining(Apply(s, l)) == Remaining(s)
  {
  }

  function OwnSteps(run: Run, t: nat, u: nat): nat
    requires t <= u <= |run.labels|
  {
    if u == t then 0 else OwnSteps(run, t, u - 1) + if Internal(run.labels[u - 1]) then 1 else 0
  }

  /** Without new tasks, every run drains: it can take at most `Remaining` steps of the
      scheduler's own, and by `WorkCanProceed` it stops only when nothing is due. */
  lemma {:induction false} Drains(now: nat, run: Run, t: nat, u: nat)
    requires IsRun(now, run) && t <= u <= |run.labels|
    requires forall i | t <= i < u :: !run.labels[i].AddTask?
    ensures OwnSteps(run, t, u) + Remaining(run.states[u]) <= Remaining(run.states[t])
  {
    if u > t {
      Drains(now, run, t, u - 1);
      NeverStranded(now, run, u - 1);
      StepOfRun(now, run, u - 1);
      WorkAdvances(run.states[u - 1], run.labels[u - 1]);
    }
  }

  // ----- When a task may run early -----------------------------------------------------------------

  /** The step runs a task that is not due. */
  predicate RunsEarly(s: State, l: Label)
  {
    l.Enter? && l.i < |s.queue| && s.now < s.queue[l.i]
  }

  /** The step arms the timer while an expiry is still pending. */
  predicate ArmsTwice(s: State, l: Label)
  {
    s.pending > 0 && (l.AddTask? || (l.Finish? && s.queue != []))
  }

  /** Every expiry stands for a due task. */
  ghost predicate OnTime(s: State)
  {
    && s.pending <= 1
    && (s.pending == 1 ==> s.armed.None? && (s.queue != [] ==> exists d :: d in s.queue && d <= s.now))
    && (s.pending == 0 && s.armed.Some? && s.queue != [] ==> s.armed.value in s.queue)
  }

  lemma StaysOnTime(s: State, l: Label)
    requires Inv(s) && OnTime(s) && Enabled(s, l) && !ArmsTwice(s, l)
    ensures OnTime(Apply(s, l))
  {
    match l
    case AddTask(due) =>
    case Tick(now) =>
      if s.pending == 1 && s.queue != [] {
        var d :| d in s.queue && d <= s.now;
        assert d in s.queue && d <= now;
      }
    case Expire(merged) =>
    case Enter(i) =>
      if s.queue != [] {
        var d :| d in s.queue && d <= s.now;
        TopIsEarliest(s.queue, i);
      }
    case Finish =>
  }

  lemma EarlyIsNotOnTime(s: State, l: Label)
    requires Enabled(s, l) && RunsEarly(s, l)
    ensures !OnTime(s)
  {
    TopIsEarliest(s.queue, l.i);
  }

  lemma NextOnTime(now: nat, run: Run, t: nat)
    requires IsRun(now, run) && t < |run.labels| && OnTime(run.states[t])
    requires !ArmsTwice(run.states[t], run.labels[t])
    ensures OnTime(run.states[t + 1])
  {
    NeverStranded(now, run, t);
    StepOfRun(now, run, t);
    StaysOnTime(run.states[t], run.labels[t]);
  }

  ghost predicate ArmedTwiceBy(run: Run, t: nat)
  {
    exists i: nat :: i < t && i < |run.labels| && i < |run.states| && ArmsTwice(run.states[i], run.labels[i])
  }

  lemma {:induction false} OnTimeUntil(now: nat, run: Run, t: nat)
    requires IsRun(now, run) && t <= |run.labels| && !ArmedTwiceBy(run, t)
    ensures OnTime(run.states[t])
  {
    if t > 0 {
      OnTimeUntil(now, run, t - 1);
      assert !ArmsTwice(run.states[t - 1], run.labels[t - 1]);
      NextOnTime(now, run, t - 1);
    }
  }

  /** A task runs early only after the timer was armed while an expiry was pending. */
  lemma EarlyOnlyAfterArmingTwice(now: nat, run: Run, t: nat)
    requires IsRun(now, run) && t < |run.labels| && RunsEarly(run.states[t], run.labels[t])
    ensures ArmedTwiceBy(run, t)
  {
    StepOfRun(now, run, t);
    EarlyIsNotOnTime(run.states[t], run.labels[t]);
    if !ArmedTwiceBy(run, t) {
      OnTimeUntil(now, run, t);
    }
  }

  /** How many queued tasks are due. */
  function Due(queue: seq<nat>, now: nat): nat
  {
    if queue == [] then 0
    else Due(queue[..|queue| - 1], now) + if queue[|queue| - 1] <= now then 1 else 0
  }

  lemma {:induction false} DueWithout(queue: seq<nat>, i: nat, now: nat)
    requires i < |queue|
    ensures Due(queue, now) == Due(Without(queue, i), now) + if queue[i] <= now then 1 else 0
  {
    var last := |queue| - 1;
    if i == last {
      assert Without(queue, i) == queue[..last];
    } else {
      DueWithout(queue[..last], i, now);
      var rest := Without(queue[..last], i);
      assert Without(queue, i) == rest + [queue[last]];
      assert (rest + [queue[last]])[..|rest|] == rest;
    }
  }

  /** If the earliest task is not due, none is. */
  lemma {:induction false} NoneDue(queue: seq<nat>, now: nat)
    requires forall i | 0 <= i < |queue| :: now < queue[i]
    ensures Due(queue, now) == 0
  {
    if queue != [] {
      NoneDue(queue[..|queue| - 1], now);
    }
  }

  /** The callbacks that take the lock one after the other, with the tops they choose. */
  predicate CanEnter(s: State, tops: seq<nat>)
    decreases |tops|
  {
    tops == [] || (Enabled(s, Enter(tops[0])) && CanEnter(Apply(s, Enter(tops[0])), tops[1..]))
  }

  predicate SomeRunsEarly(s: State, tops: seq<nat>)
    requires CanEnter(s, tops)
    decreases |tops|
  {
    && tops != []
    && (RunsEarly(s, Enter(tops[0])) || SomeRunsEarly(Apply(s, Enter(tops[0])), tops[1..]))
  }

  /** In every state: of any number of pending callbacks that take the lock one after the
      other, one runs a task early exactly if they are more than the queued tasks that are
      due and not all queued tasks are due. */
  lemma {:induction false} EarlyExactly(s: State, tops: seq<nat>)
    requires CanEnter(s, tops)
    ensures SomeRunsEarly(s, tops) <==> Due(s.queue, s.now) < |tops| && Due(s.queue, s.now) < |s.queue|
    decreases |tops|
  {
    if tops != [] {
      EarlyExactly(Apply(s, Enter(tops[0])), tops[1..]);
      if s.queue != [] {
        DueWithout(s.queue, tops[0], s.now);
        if s.now < s.queue[tops[0]] {
          NoneDue(s.queue, s.now);
        }
      }
    }
  }

  lemma Extended(now: nat, run: Run, l: Label) returns (longer: Run)
    requires IsRun(now, run) && Enabled(run.states[|run.labels|], l)
    ensures IsRun(now, longer) && longer.labels == run.labels + [l]
    ensures longer.states == run.states + [Apply(run.states[|run.labels|], l)]
  {
    longer := Run(run.states + [Apply(run.states[|run.labels|], l)], run.labels + [l]);
    forall t | 0 <= t < |longer.labels|
      ensures StepAt(longer, t)
    {
      assert t < |run.labels| ==> StepAt(run, t);
    }
  }

  /** A task due at 5 has expired and is due again because a task due at 9 was added before
      its callback came; both callbacks are pending at time 5. */
  lemma TwoExpiries() returns (run: Run)
    ensures IsRun(0, run) && |run.labels| == 5
    ensures run.states[5] == State([5, 9], 2, 0, None, 2, 5)
  {
    run := Run([Init(0)], []);
    run := Extended(0, run, AddTask(5));
    assert run.states[1] == State([5], 1, 0, Some(5), 0, 0);
    run := Extended(0, run, Tick(5));
    run := Extended(0, run, Expire(false));
    assert run.states[3] == State([5], 1, 0, None, 1, 5);
    run := Extended(0, run, AddTask(9));
    assert TopIndex([5, 9]) == 0 && [5] + [9] == [5, 9];
    assert run.states[4] == State([5, 9], 2, 0, Some(5), 1, 5);
    run := Extended(0, run, Expire(false));
  }

  /** And then it can: the second callback finds the new task and runs it at time 5. */
  lemma EarlyExample() returns (run: Run)
    ensures IsRun(0, run) && |run.labels| == 7 && RunsEarly(run.states[6], run.labels[6])
  {
    run := TwoExpiries();
    run := Extended(0, run, Enter(0));
    assert Without([5, 9], 0) == [9];
    assert run.states[6] == State([9], 2, 1, None, 1, 5);
    run := Extended(0, run, Enter(0));
  }

  // ----- The scheduler object -------------------------------------------------------------------------

  class TimerQueue {
    var queue: seq<nat>
    var counter: nat
    var armed: Option<nat>

    /** The scheduler's part of the state, the rest being given. */
    ghost function Value(inFlight: nat, pending: nat, now: nat): State
      reads this
    {
      State(queue, counter, inFlight, armed, pending, now)
    }

    constructor ()
      ensures forall now :: Value(0, 0, now) == Init(now)
    {
      queue, counter, armed := [], 0, None;
    }

    method StartTimer()
      requires queue != []
      modifies this`armed
      ensures armed == Some(queue[TopIndex(queue)]) && Earliest(queue, armed.value)
    {
      TopIsEarliest(queue, TopIndex(queue));
      armed := Some(queue[TopIndex(queue)]);
    }

    method AddTask(due: nat)
      modifies this
      ensures forall f, p, now :: Value(f, p, now) == AfterAdd(old(Value(f, p, now)), due)
      ensures multiset(queue) == old(multiset(queue)) + multiset{due} && counter == old(counter) + 1
      ensures armed.Some? && Earliest(queue, armed.value)
    {
      queue := queue + [due];
      counter := counter + 1;
      StartTimer();
    }

    /** The first locked region of `RunTask`: the earliest task, if there is one. */
    method TakeTask() returns (task: Option<nat>)
      modifies this`queue
      ensures task == if old(queue) == [] then None else Some(old(queue)[TopIndex(old(queue))])
      ensures old(queue) == [] ==> queue == []
      ensures old(queue) != [] ==> queue == Without(old(queue), TopIndex(old(queue)))
      ensures task.Some? ==>
        Earliest(old(queue), task.value) && multiset(queue) + multiset{task.value} == old(multiset(queue))
    {
      if queue == [] {
        return None;
      }
      var i := TopIndex(queue);
      TopIsEarliest(queue, i);
      WithoutOne(queue, i);
      task := Some(queue[i]);
      queue := Without(queue, i);
    }

    /** The second: whoever finishes re-arms the timer if tasks are left. `idle` stands for
        the notification that none are. */
    method FinishTask() returns (idle: bool)
      requires counter > 0
      modifies this
      ensures forall f: nat, p, now | f > 0 :: Value(f - 1, p, now) == AfterFinish(old(Value(f, p, now)))
      ensures queue == old(queue) && counter == old(counter) - 1 && (idle <==> counter == 0)
      ensures if counter != 0 && queue != [] then armed.Some? && Earliest(queue, armed.value) else armed == old(armed)
    {
      counter := counter - 1;
      idle := counter == 0;
      if !idle && queue != [] {
        StartTimer();
      }
    }
  }
}
