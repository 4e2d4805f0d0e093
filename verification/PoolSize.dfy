/** The number of threads: what the last `SetNumThreads` that returned asked for, in every
    interleaving, and what that call does if nothing interferes. */
module PoolSize {
  import opened ThreadPool
  import opened PoolConservation

  // ----- The total is what was asked for ---------------------------------------------------------

  /** The size asked for by the last call of `SetNumThreads`, or else by the constructor. */
  function Called(n: nat, labels: seq<Label>): nat
  {
    if labels == [] then n
    else if labels[|labels| - 1].CallSetNumThreads? then labels[|labels| - 1].n
    else Called(n, labels[..|labels| - 1])
  }

  /** The same of the calls made before the last return of any call. */
  function Returned(n: nat, labels: seq<Label>): nat
  {
    if labels == [] then n
    else if labels[|labels| - 1].Return? then Called(n, labels)
    else Returned(n, labels[..|labels| - 1])
  }

  /** The pool has the size of the last call that returned, and a call under way is about the
      last size asked for. */
  ghost predicate HasSize(p: Pool, called: nat, returned: nat)
  {
    && p.total == returned
    && match p.control
       case Growing(target, _, _) => target == called
       case Shrinking(target, _) => target == called
       case _ => called == returned
  }

  lemma SizeStep(p: Pool, l: Label, called: nat, returned: nat)
    requires Enabled(p, l) && HasSize(p, called, returned)
    ensures var called' := if l.CallSetNumThreads? then l.n else called;
      HasSize(Apply(p, l), called', if l.Return? then called' else returned)
  {
  }

  lemma SizesNext(n: nat, labels: seq<Label>, t: nat)
    requires t < |labels|
    ensures Called(n, labels[..t + 1])
         == if labels[t].CallSetNumThreads? then labels[t].n else Called(n, labels[..t])
    ensures Returned(n, labels[..t + 1])
         == if labels[t].Return? then Called(n, labels[..t + 1]) else Returned(n, labels[..t])
  {
    assert labels[..t + 1][..t] == labels[..t];
  }

  ghost predicate SizeAt(n: nat, run: Run, t: nat)
    requires t <= |run.labels| < |run.states|
  {
    HasSize(run.states[t], Called(n, run.labels[..t]), Returned(n, run.labels[..t]))
  }

  lemma NextSize(n: nat, run: Run, t: nat)
    requires IsRun(n, run) && t < |run.labels| && SizeAt(n, run, t)
    ensures SizeAt(n, run, t + 1)
  {
    StepOfRun(n, run, t);
    SizeStep(run.states[t], run.labels[t], Called(n, run.labels[..t]), Returned(n, run.labels[..t]));
    SizesNext(n, run.labels, t);
  }

  lemma {:induction false} AlwaysSized(n: nat, run: Run, t: nat)
    requires IsRun(n, run) && t < |run.states|
    ensures SizeAt(n, run, t)
  {
    if t == 0 {
      assert run.labels[..0] == [];
    } else {
      AlwaysSized(n, run, t - 1);
      NextSize(n, run, t - 1);
    }
  }

  /** In every run `m_total_threads` is what the last `SetNumThreads` that returned asked for, and
      in the beginning what the constructor was given; when no call is under way there are
      as many worker loops as that, and one more for each End task in flight. */
  lemma TotalIsAsked(n: nat, run: Run, t: nat)
    requires IsRun(n, run) && t < |run.states|
    ensures run.states[t].total == Returned(n, run.labels[..t])
    ensures run.states[t].control.Ready? ==>
      && Called(n, run.labels[..t]) == Returned(n, run.labels[..t])
      && Live(run.states[t].workers) == Returned(n, run.labels[..t]) + EndsInFlight(run.states[t])
  {
    AlwaysSized(n, run, t);
    LoopsBalance(n, run, t);
  }

  /** `SetNumThreads(m)` is called at step `a` and returns at step `b`. */
  ghost predicate ResizeCall(run: Run, a: nat, b: nat, m: nat)
  {
    && a < b < |run.labels|
    && run.labels[a] == CallSetNumThreads(m) && run.labels[b].Return?
    && forall i | a < i < b :: !run.labels[i].Return?
  }

  predicate ResizesTo(p: Pool, m: nat)
  {
    (p.control.Growing? || p.control.Shrinking?) && p.control.target == m
  }

  lemma ResizingStep(p: Pool, l: Label, m: nat)
    requires Enabled(p, l) && ResizesTo(p, m)
    ensures if l.Return? then Apply(p, l).total == m && Apply(p, l).control.Ready? else ResizesTo(Apply(p, l), m)
    ensures !l.Return? ==> Apply(p, l).total == p.total
  {
  }

  lemma {:induction false} ResizingSince(n: nat, run: Run, a: nat, t: nat)
    requires IsRun(n, run) && a < t < |run.states| && run.labels[a].CallSetNumThreads?
    requires forall i | a < i < t :: !run.labels[i].Return?
    ensures ResizesTo(run.states[t], run.labels[a].n) && run.states[t].total == run.states[a].total
  {
    StepOfRun(n, run, t - 1);
    if t > a + 1 {
      ResizingSince(n, run, a, t - 1);
      ResizingStep(run.states[t - 1], run.labels[t - 1], run.labels[a].n);
    }
  }

  /** When `SetNumThreads(m)` returns, `m_total_threads` is `m`, and there are `m` worker loops
      and one more for each End task in flight, whatever the workers did meanwhile. */
  lemma SetNumThreadsTakesEffect(n: nat, run: Run, a: nat, b: nat, m: nat)
    requires IsRun(n, run) && ResizeCall(run, a, b, m)
    ensures run.states[b + 1].total == m && run.states[b + 1].control.Ready?
    ensures Live(run.states[b + 1].workers) == m + EndsInFlight(run.states[b + 1])
  {
    ResizingSince(n, run, a, b);
    StepOfRun(n, run, b);
    ResizingStep(run.states[b], run.labels[b], m);
    LoopsBalance(n, run, b + 1);
  }

  /** No other step changes `m_total_threads`: when it changes, a `SetNumThreads` of the new
      number returns. */
  lemma {:induction false} OnlySetNumThreadsResizes(n: nat, run: Run, t: nat) returns (a: nat)
    requires IsRun(n, run) && t < |run.labels| && run.states[t + 1].total != run.states[t].total
    ensures ResizeCall(run, a, t, run.states[t + 1].total)
  {
    StepOfRun(n, run, t);
    a := CallUnderWay(n, run, t);
    ResizingSince(n, run, a, t);
  }

  /** The call of a resize under way, unless it is the constructor's. */
  lemma {:induction false} CallUnderWay(n: nat, run: Run, t: nat) returns (a: nat)
    requires IsRun(n, run) && t < |run.states| && (run.states[t].control.Growing? || run.states[t].control.Shrinking?)
    requires run.states[t].control.target != run.states[t].total
    ensures a < t && run.labels[a].CallSetNumThreads? && forall i | a < i < t :: !run.labels[i].Return?
  {
    StepOfRun(n, run, t - 1);
    a := t - 1;
    if !run.labels[a].CallSetNumThreads? {
      a := CallUnderWay(n, run, t - 1);
    }
  }

  // ----- The call alone ------------------------------------------------------------------------------

  predicate OfResize(l: Label)
  {
    l.Reuse? || l.StopReusing? || l.Spawn? || l.PushEnd?
  }

  /** The times of the End tasks that the steps push. */
  function StampsOf(labels: seq<Label>): seq<nat>
  {
    if labels == [] then []
    else StampsOf(labels[..|labels| - 1]) + match labels[|labels| - 1]
      case PushEnd(stamp) => [stamp]
      case _ => []
  }

  lemma EndsSnoc(stamps: seq<nat>, stamp: nat)
    ensures Ends(stamps + [stamp]) == Ends(stamps) + [PoolTask(End, CRITICAL, stamp)]
  {
  }

  /** How far a call from `p` on has come after the steps `labels`, if they are all its own. */
  ghost predicate OnTheWay(p: Pool, m: nat, now: Pool, stamps: seq<nat>)
    requires IdsKept(p)
  {
    && IdsKept(now)
    && if m > p.total then
         && now.control.Growing? && now.control.target == m && stamps == []
         && (now.control.reusing || now.deleted == [] || now.control.left == 0)
         && Grown(now.(control := Ready), now.control.left) == Grown(p, m - p.total)
       else
         && |stamps| <= p.total - m
         && now == p.(queue := p.queue + Ends(stamps), control := Shrinking(m, p.total - m - |stamps|))
  }

  lemma FirstOnTheWay(p: Pool, m: nat)
    requires IdsKept(p) && p.control.Ready?
    ensures OnTheWay(p, m, Apply(p, CallSetNumThreads(m)), [])
  {
    var now := Apply(p, CallSetNumThreads(m));
    assert p.queue + Ends([]) == p.queue;
    assert m > p.total ==> now.(control := Ready) == p;
    forall tid: nat
      ensures Is(now, tid, Gone) <==> Is(p, tid, Gone)
    {
    }
  }

  lemma NextOnTheWay(p: Pool, m: nat, now: Pool, l: Label, stamps: seq<nat>)
    requires IdsKept(p) && OnTheWay(p, m, now, stamps) && Enabled(now, l) && OfResize(l)
    ensures OnTheWay(p, m, Apply(now, l), if l.PushEnd? then stamps + [l.stamp] else stamps)
  {
    IdsKeep(now, l);
    if m > p.total {
      GrowingAlone(now, l);
    } else {
      EndsSnoc(stamps, l.stamp);
      assert p.queue + Ends(stamps) + [PoolTask(End, CRITICAL, l.stamp)] == p.queue + Ends(stamps + [l.stamp]);
    }
  }

  lemma StampsNext(labels: seq<Label>, a: nat, t: nat)
    requires a < t < |labels|
    ensures StampsOf(labels[a + 1..t + 1])
         == StampsOf(labels[a + 1..t]) + if labels[t].PushEnd? then [labels[t].stamp] else []
  {
    assert labels[a + 1..t + 1][..t - a - 1] == labels[a + 1..t];
  }

  lemma AloneNext(n: nat, run: Run, a: nat, t: nat, stamps: seq<nat>)
    requires IsRun(n, run) && a < t < |run.labels| && run.labels[a].CallSetNumThreads? && OfResize(run.labels[t])
    requires IdsKept(run.states[a]) && OnTheWay(run.states[a], run.labels[a].n, run.states[t], stamps)
    ensures OnTheWay(run.states[a], run.labels[a].n, run.states[t + 1],
                     stamps + if run.labels[t].PushEnd? then [run.labels[t].stamp] else [])
  {
    StepOfRun(n, run, t);
    NextOnTheWay(run.states[a], run.labels[a].n, run.states[t], run.labels[t], stamps);
    assert stamps + [] == stamps;
  }

  lemma AloneFirst(n: nat, run: Run, a: nat)
    requires IsRun(n, run) && a < |run.labels| && run.labels[a].CallSetNumThreads?
    ensures IdsKept(run.states[a])
    ensures OnTheWay(run.states[a], run.labels[a].n, run.states[a + 1], [])
  {
    RunKeeps(n, run, a);
    StepOfRun(n, run, a);
    FirstOnTheWay(run.states[a], run.labels[a].n);
  }

  lemma {:induction false} AloneSince(n: nat, run: Run, a: nat, t: nat)
    requires IsRun(n, run) && a < t < |run.states| && run.labels[a].CallSetNumThreads?
    requires forall i | a < i < t :: OfResize(run.labels[i])
    ensures IdsKept(run.states[a])
    ensures OnTheWay(run.states[a], run.labels[a].n, run.states[t], StampsOf(run.labels[a + 1..t]))
  {
    AloneFirst(n, run, a);
    if t > a + 1 {
      AloneSince(n, run, a, t - 1);
      AloneNext(n, run, a, t - 1, StampsOf(run.labels[a + 1..t - 1]));
      StampsNext(run.labels, a, t - 1);
    }
  }

  /** If no worker and no other thread steps in between, the steps of `SetNumThreads` end where
      the method of the class ends. */
  lemma ResizesAlone(n: nat, run: Run, a: nat, b: nat, m: nat)
    requires IsRun(n, run) && ResizeCall(run, a, b, m) && forall i | a < i < b :: OfResize(run.labels[i])
    ensures IdsKept(run.states[a])
    ensures run.states[b + 1] == Resized(run.states[a], m, StampsOf(run.labels[a + 1..b]))
    ensures m <= run.states[a].total ==> |StampsOf(run.labels[a + 1..b])| == run.states[a].total - m
  {
    AloneSince(n, run, a, b);
    StepOfRun(n, run, a);
    StepOfRun(n, run, b);
    GrownKeepsControl(run.states[a], if m > run.states[a].total then m - run.states[a].total else 0);
  }

  lemma GrownKeepsControl(p: Pool, amount: nat)
    requires IdsKept(p)
    ensures Grown(p, amount).control == p.control
  {
    GrownIs(p, amount);
  }
}
