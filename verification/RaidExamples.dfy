/** Runs of a given shape, requests that a run leaves without an answer for good, and exactly
    which requests can be answered whatever the schedule. */
module RaidExamples {
  import opened Types
  import opened StripeSplitter
  import opened Codec
  import opened MirrorTicket
  import opened MinionManager
  import opened MasterProxies
  import opened RaidSystem
  import opened RaidInvariant
  import opened RaidSafety
  import opened RaidTickets
  import opened WideCallbacks
  import opened RaidProgress

  /** The part of the state that only a minion or an answer changes. */
  ghost predicate SameMinions(s: System, s': System)
  {
    s'.stores == s.stores && s'.pending == s.pending && s'.toMinion == s.toMinion && s'.toMaster == s.toMaster
  }

  /** `longer` fires what `run` fires and nothing else. */
  ghost predicate NoMoreFired(run: Run, longer: Run)
    requires |run.states| == |run.labels| + 1 && |longer.states| == |longer.labels| + 1
  {
    forall call :: FiredBefore(longer, |longer.labels|, call) ==> FiredBefore(run, |run.labels|, call)
  }

  lemma QuietStep(c: Config, run: Run, longer: Run, l: Label)
    requires ValidConfig(c) && IsRun(c, run) && Extends(c, run, longer)
    requires longer.labels == run.labels + [l] && !l.Wakeup?
    ensures NoMoreFired(run, longer)
  {
    forall call | FiredBefore(longer, |longer.labels|, call)
      ensures FiredBefore(run, |run.labels|, call)
    {
      FiredBeforeNext(longer, |run.labels|, call);
      FiredInBoth(c, run, longer, |run.labels|, call);
    }
  }

  /** One more step that fires nothing. */
  lemma OneQuiet(c: Config, run: Run, l: Label) returns (longer: Run)
    requires ValidConfig(c) && IsRun(c, run) && Enabled(c, Last(run), l) && !l.Wakeup?
    ensures Extends(c, run, longer) && longer.labels == run.labels + [l]
    ensures Last(longer) == Apply(c, Last(run), l) && NoMoreFired(run, longer)
  {
    longer := OneMore(c, run, l);
    QuietStep(c, run, longer, l);
  }

  lemma QuietTwice(c: Config, a: Run, b: Run, d: Run)
    requires ValidConfig(c) && IsRun(c, a) && Extends(c, a, b) && Extends(c, b, d)
    requires NoMoreFired(a, b) && NoMoreFired(b, d)
    ensures Extends(c, a, d) && NoMoreFired(a, d)
  {
    ExtendsTwice(c, a, b, d);
  }

  lemma Accepted(c: Config, r: Request)
    requires ValidConfig(c) && ValidRequest(r) && r.offset + r.length <= c.n * c.chunk
    ensures RangeAccepted(r.offset, r.length, c.n * c.chunk)
    ensures BufferFits(r.op, SegmentsOf(c, r), r.data)
  {
    SegmentsFit(r.op, r.offset, r.length, c.chunk, c.n, r.data);
  }

  lemma AfterOpening(c: Config, s: System, uid: nat)
    requires ValidConfig(c) && uid in s.tasks
    requires var r := s.tasks[uid].request; RangeAccepted(r.offset, r.length, c.n * c.chunk)
    ensures AfterOpenTicket(c, s, uid).tasks == s.tasks[uid := s.tasks[uid].(phase := Sending(0))]
    ensures SameMinions(s, AfterOpenTicket(c, s, uid)) && AfterOpenTicket(c, s, uid).nextUid == s.nextUid
  {
  }

  /** Reading a request from the kernel and opening its ticket. */
  lemma OpenRequest(c: Config, run: Run, r: Request) returns (longer: Run)
    requires ValidConfig(c) && IsRun(c, run) && ValidRequest(r) && Last(run).nextUid < U64
    requires r.offset + r.length <= c.n * c.chunk
    ensures Extends(c, run, longer) && NoMoreFired(run, longer)
    ensures Last(longer).tasks == Last(run).tasks[Last(run).nextUid := Task(r, Sending(0))]
    ensures Last(longer).nextUid == Last(run).nextUid + 1 && SameMinions(Last(run), Last(longer))
  {
    var uid := Last(run).nextUid;
    Accepted(c, r);
    var read := OneQuiet(c, run, NewRequest(r));
    var queued := OneQuiet(c, read, Announce(uid));
    QuietTwice(c, run, read, queued);
    AfterOpening(c, Last(queued), uid);
    longer := OneQuiet(c, queued, OpenTicket(uid));
    QuietTwice(c, run, queued, longer);
  }

  lemma SendKeepsStores(c: Config, s: System, uid: nat, trailer: Byte)
    requires ValidConfig(c) && CanSend(c, s, uid)
    ensures AfterSend(c, s, uid, trailer).stores == s.stores && AfterSend(c, s, uid, trailer).nextUid == s.nextUid
  {
  }

  lemma SendKeepsAnswers(c: Config, s: System, uid: nat, trailer: Byte)
    requires ValidConfig(c) && CanSend(c, s, uid)
    ensures AfterSend(c, s, uid, trailer).toMaster == s.toMaster
  {
  }

  lemma JustWaits(s: System, m: nat, waiting: map<nat, Callback>, call: Callback)
    requires m < |s.pending| && s.pending[m] == waiting[call.ticket := call]
    ensures WaitsAt(s, m, call)
  {
  }

  lemma SendWaits(c: Config, s: System, uid: nat, r: Request, k: nat, m: nat)
    requires ValidConfig(c) && Shape(c, s) && Tasks(c, s) && CanSend(c, s, uid)
    requires s.tasks[uid].request == r && s.tasks[uid].phase.sent == k && m == SendTarget(c, r, k)
    ensures WaitsAt(AfterSend(c, s, uid, 0), m, NewCallback(uid, k))
  {
    SendReplaces(c, s, uid, 0);
    JustWaits(AfterSend(c, s, uid, 0), m, s.pending[m], NewCallback(uid, k));
  }

  lemma SendHasMinion(c: Config, s: System, uid: nat, r: Request, k: nat)
    requires ValidConfig(c) && Shape(c, s) && Tasks(c, s) && CanSend(c, s, uid)
    requires s.tasks[uid].request == r && s.tasks[uid].phase.sent == k
    ensures OutgoingOf(c, r, uid, k, 0).minion < |s.pending|
  {
    assert TaskOk(c, s, uid);
    SendInRange(c, r, uid, k, 0);
  }

  lemma TasksAfterSend(c: Config, s: System, uid: nat, r: Request, k: nat)
    requires ValidConfig(c) && CanSend(c, s, uid) && s.tasks[uid] == Task(r, Sending(k))
    requires OutgoingOf(c, r, uid, k, 0).minion < |s.pending|
    ensures AfterSend(c, s, uid, 0).tasks == s.tasks[uid := Task(r, Sending(k + 1))]
  {
    SendCounts(c, s, uid, 0);
  }

  /** The next message of a request goes out, and its callback waits. */
  lemma SendNext(c: Config, run: Run, uid: nat, r: Request, k: nat) returns (longer: Run)
    requires ValidConfig(c) && IsRun(c, run) && CanSend(c, Last(run), uid) && Last(run).tasks[uid] == Task(r, Sending(k))
    ensures Extends(c, run, longer) && NoMoreFired(run, longer) && longer.labels == run.labels + [Send(uid, 0)]
    ensures Last(longer).tasks == Last(run).tasks[uid := Task(r, Sending(k + 1))]
    ensures Last(longer).stores == Last(run).stores && Last(longer).toMaster == Last(run).toMaster
    ensures Last(longer).nextUid == Last(run).nextUid
    ensures WaitsAt(Last(longer), SendTarget(c, r, k), NewCallback(uid, k))
  {
    RunKeeps(c, run, |run.labels|);
    longer := OneQuiet(c, run, Send(uid, 0));
    SendHasMinion(c, Last(run), uid, r, k);
    TasksAfterSend(c, Last(run), uid, r, k);
    SendWaits(c, Last(run), uid, r, k, SendTarget(c, r, k));
    SendKeepsStores(c, Last(run), uid, 0);
    SendKeepsAnswers(c, Last(run), uid, 0);
  }

  /** The first `k` sends of a request, with nothing in between. */
  lemma {:induction false} SendAll(c: Config, run: Run, uid: nat, r: Request, k: nat) returns (longer: Run)
    requires ValidConfig(c) && IsRun(c, run) && uid in Last(run).tasks
    requires Last(run).tasks[uid] == Task(r, Sending(0))
    requires k <= 2 * |SegmentsOf(c, r)| && BufferFits(r.op, SegmentsOf(c, r), r.data)
    ensures Extends(c, run, longer) && NoMoreFired(run, longer)
    ensures Last(longer).tasks == Last(run).tasks[uid := Task(r, Sending(k))]
    ensures Last(longer).stores == Last(run).stores && Last(longer).nextUid == Last(run).nextUid
  {
    if k == 0 {
      longer := run;
      assert Last(run).tasks[uid := Task(r, Sending(0))] == Last(run).tasks;
    } else {
      var before := SendAll(c, run, uid, r, k - 1);
      longer := SendNext(c, before, uid, r, k - 1);
      QuietTwice(c, run, before, longer);
      assert Last(run).tasks[uid := Task(r, Sending(k - 1))][uid := Task(r, Sending(k))]
          == Last(run).tasks[uid := Task(r, Sending(k))];
    }
  }

  function Start(c: Config): Run
  {
    Run([Init(c)], [])
  }

  /** All messages of one request are out, and no answer has come. */
  lemma AllSent(c: Config, r: Request) returns (run: Run)
    requires ValidConfig(c) && ValidRequest(r) && r.length > 0 && r.offset + r.length <= c.n * c.chunk
    ensures IsRun(c, run) && AllOut(c, Last(run), 0, |SegmentsOf(c, r)|)
    ensures Last(run).tasks[0].request == r && forall call :: !FiredBefore(run, |run.labels|, call)
  {
    Accepted(c, r);
    var ready := OpenRequest(c, Start(c), r);
    run := SendAll(c, ready, 0, r, 2 * |SegmentsOf(c, r)|);
    QuietTwice(c, Start(c), ready, run);
    SegmentsTile(r.offset, r.length, c.chunk, c.n);
  }

  /** A write with two or more segments, or any write on a drive of one minion: if all its
      messages are out before the first answer comes, it is never answered, however the
      run goes on. */
  lemma UnansweredWrite(c: Config, r: Request) returns (run: Run)
    requires ValidConfig(c) && ValidRequest(r) && r.op == Write
    requires r.length > 0 && r.offset + r.length <= c.n * c.chunk
    requires |SegmentsOf(c, r)| >= 2 || c.n == 1
    ensures IsRun(c, run) && AllOut(c, Last(run), 0, |SegmentsOf(c, r)|) && Last(run).tasks[0].request == r
    ensures forall longer | Extends(c, run, longer) :: !Replied(Last(longer), 0)
  {
    run := AllSent(c, r);
    var count := |SegmentsOf(c, r)|;
    AllAliveExactly(c, run, 0, count);
    var k := if c.n == 1 then 0 else 1;
    assert Collide(c.n, k, k + 1) && k + 1 < 2 * count;
    assert !CollisionsFired(c, run, 0, 2 * count);
    var dead: nat :| dead < 2 * count && !Alive(run, 0, dead);
    forall longer | Extends(c, run, longer)
      ensures !Replied(Last(longer), 0)
    {
      DeadWriteIsNot(c, run, longer, 0, count, dead);
    }
  }

  /** The callback of a message that is out, not answered and not overtaken waits. */
  lemma SentWaits(c: Config, run: Run, uid: nat, count: nat, k: nat) returns (m: nat)
    requires ValidConfig(c) && IsRun(c, run) && AllOut(c, Last(run), uid, count) && k < 2 * count
    requires !FiredBefore(run, |run.labels|, NewCallback(uid, k))
    requires forall j: nat :: !(k < j < 2 * count && Collide(c.n, k, j))
    ensures WaitsAt(Last(run), m, NewCallback(uid, k)) && m == SendTarget(c, Last(run).tasks[uid].request, k)
  {
    AliveExactly(c, run, uid, count, k);
    m := WaitingSomewhere(Last(run), NewCallback(uid, k));
    CallbacksWaitAtTarget(c, run, |run.labels|);
    WaitsOnlyThere(c, Last(run), m, NewCallback(uid, k));
    TargetIs(c, Last(run).tasks[uid].request, uid, k);
  }

  lemma NothingTold(run: Run, now: nat, uid: nat)
    requires |run.states| == |run.labels| + 1 && now < |run.labels|
    requires FiredBy(run.states[now], run.labels[now]) == None
    ensures Heard(run, now + 1, uid) == Heard(run, now, uid)
  {
  }

  lemma OneTold(run: Run, now: nat, call: Callback, answer: Answer)
    requires |run.states| == |run.labels| + 1 && now < |run.labels|
    requires FiredBy(run.states[now], run.labels[now]) == Some((call, answer))
    ensures Heard(run, now + 1, call.ticket)
         == Heard(run, now, call.ticket) + [Response(call.segment, call.role, Some(answer))]
  {
  }

  lemma HeardTwoSteps(c: Config, run: Run, longer: Run, call: Callback, answer: Answer)
    requires ValidConfig(c) && IsRun(c, run) && Extends(c, run, longer) && |longer.labels| == |run.labels| + 2
    requires FiredBy(longer.states[|run.labels|], longer.labels[|run.labels|]) == None
    requires FiredBy(longer.states[|run.labels| + 1], longer.labels[|run.labels| + 1]) == Some((call, answer))
    ensures Heard(longer, |longer.labels|, call.ticket)
         == Heard(run, |run.labels|, call.ticket) + [Response(call.segment, call.role, Some(answer))]
  {
    HeardInBoth(c, run, longer, |run.labels|, call.ticket);
    NothingTold(longer, |run.labels|, call.ticket);
    OneTold(longer, |run.labels| + 1, call, answer);
  }

  lemma NothingFiredNothingHeard(run: Run, uid: nat)
    requires |run.states| == |run.labels| + 1 && forall call :: !FiredBefore(run, |run.labels|, call)
    ensures Heard(run, |run.labels|, uid) == []
  {
    if Heard(run, |run.labels|, uid) != [] {
      var t := HeardWasTold(run, |run.labels|, uid, 0);
      assert FiredBefore(run, |run.labels|, Callback(uid, Heard(run, |run.labels|, uid)[0].segment,
                                                     Heard(run, |run.labels|, uid)[0].role));
    }
  }

  // ----- A read that is never answered -------------------------------------------------------------

  /** Nothing of the first segment can come any more: its backup's callback was replaced and its
      primary's was replaced too or has got an answer that is not OK. */
  ghost predicate FirstIsLost(run: Run, uid: nat)
    requires |run.states| == |run.labels| + 1
  {
    && !Answered(Heard(run, |run.labels|, uid), 0, Backup) && !AnsweredOk(Heard(run, |run.labels|, uid), 0, Primary)
    && !Waiting(run, uid, 0) && !Waiting(run, uid, 1)
  }

  lemma LostIsHopeless(run: Run, uid: nat)
    requires |run.states| == |run.labels| + 1 && FirstIsLost(run, uid)
    ensures !Hopeful(run, uid, 0)
  {
  }

  lemma ReplacedIsNotWaiting(c: Config, run: Run, uid: nat, count: nat, k: nat, j: nat)
    requires ValidConfig(c) && IsRun(c, run) && AllOut(c, Last(run), uid, count) && k < j < 2 * count
    requires Collide(c.n, k, j) && forall call :: !FiredBefore(run, |run.labels|, call)
    ensures Lost(run, |run.labels|, uid, k) && !Waiting(run, uid, k)
  {
    AliveExactly(c, run, uid, count, k);
  }

  /** The answer of the first primary that still waits comes, and it is not OK. */
  lemma FirstFails(c: Config, run: Run, uid: nat, count: nat) returns (longer: Run)
    requires ValidConfig(c) && IsRun(c, run) && AllOut(c, Last(run), uid, count) && count >= 2
    requires Deliverable(c, Last(run), uid) && forall call :: !FiredBefore(run, |run.labels|, call)
    requires count < c.n
    ensures IsRun(c, longer) && Last(longer).tasks == Last(run).tasks && FirstIsLost(longer, uid)
  {
    var call := NewCallback(uid, 0);
    var m := SentWaits(c, run, uid, count, 0);
    var id, answer;
    longer, id, answer := AnswerReaches(c, run, uid, 0, m, call, false);
    HeardTwoSteps(c, run, longer, call, AnswerOf(answer).value);
    NothingFiredNothingHeard(run, uid);
    FiringSpendsAt(c, longer, |run.labels| + 1);
    ReplacedIsNotWaiting(c, run, uid, count, 1, 2);
    PrefixOfRun(c, run, longer);
    FiredInBoth(c, run, longer, |run.labels|, NewCallback(uid, 1));
    LostForGood(c, longer, |run.labels|, |longer.labels|, uid, 1);
  }

  lemma FirstIsReplaced(c: Config, run: Run, uid: nat, count: nat)
    requires ValidConfig(c) && IsRun(c, run) && AllOut(c, Last(run), uid, count) && count >= 2
    requires forall call :: !FiredBefore(run, |run.labels|, call)
    requires c.n <= count
    ensures FirstIsLost(run, uid)
  {
    ReplacedIsNotWaiting(c, run, uid, count, 0, 2 * c.n - 1);
    ReplacedIsNotWaiting(c, run, uid, count, 1, 2);
    NothingFiredNothingHeard(run, uid);
  }

  /** A run after which a read of two or more segments is never answered, however it goes on: all
      its messages are out before the first answer comes, and its first primary fails or,
      if the read touches every minion, need not even fail. */
  lemma UnansweredRead(c: Config, r: Request) returns (run: Run)
    requires ValidConfig(c) && ValidRequest(r) && r.op == Read && SmallSlices(c, r)
    requires r.length > 0 && r.offset + r.length <= c.n * c.chunk && |SegmentsOf(c, r)| >= 2
    ensures IsRun(c, run) && AllOut(c, Last(run), 0, |SegmentsOf(c, r)|) && Last(run).tasks[0].request == r
    ensures forall longer | Extends(c, run, longer) :: !Replied(Last(longer), 0)
  {
    var count := |SegmentsOf(c, r)|;
    run := AllSent(c, r);
    if c.n <= count {
      FirstIsReplaced(c, run, 0, count);
    } else {
      run := FirstFails(c, run, 0, count);
    }
    LostIsHopeless(run, 0);
    forall longer | Extends(c, run, longer)
      ensures !Replied(Last(longer), 0)
    {
      HopelessReadIsNot(c, run, longer, 0, count, 0);
    }
  }

  // ----- Answerable whatever the schedule ----------------------------------------------------------

  /** Once all its messages are out, the request can be answered, whatever happened before. */
  ghost predicate AlwaysAnswerable(c: Config, r: Request)
    requires ValidConfig(c)
  {
    forall run, uid: nat | IsRun(c, run) && AllOut(c, Last(run), uid, |SegmentsOf(c, r)|)
                           && Last(run).tasks[uid].request == r :: CanBeAnswered(c, run, uid)
  }

  lemma NotAlwaysAnswerable(c: Config, r: Request, run: Run)
    requires ValidConfig(c) && IsRun(c, run) && AllOut(c, Last(run), 0, |SegmentsOf(c, r)|)
    requires Last(run).tasks[0].request == r && forall longer | Extends(c, run, longer) :: !Replied(Last(longer), 0)
    ensures !AlwaysAnswerable(c, r)
  {
    assert !CanBeAnswered(c, run, 0);
  }

  lemma OneSegmentReadIsHopeful(c: Config, run: Run, uid: nat)
    requires ValidConfig(c) && IsRun(c, run) && AllOut(c, Last(run), uid, 1)
    ensures Hopeful(run, uid, 0)
  {
    AliveExactly(c, run, uid, 1, 1);
    AnsweredIsFired(run, |run.labels|, uid, 0, Backup);
  }

  /** Whatever the schedule, a write can be answered exactly if it is one segment on a drive
      of two or more minions, and a read exactly if it is one segment. */
  lemma AlwaysAnswerableExactly(c: Config, r: Request)
    requires ValidConfig(c) && ValidRequest(r) && SmallSlices(c, r)
    requires r.length > 0 && r.offset + r.length <= c.n * c.chunk
    ensures AlwaysAnswerable(c, r) <==> |SegmentsOf(c, r)| == 1 && (r.op == Write ==> c.n >= 2)
  {
    SegmentsTile(r.offset, r.length, c.chunk, c.n);
    if |SegmentsOf(c, r)| == 1 && (r.op == Write ==> c.n >= 2) {
      forall run, uid: nat | IsRun(c, run) && AllOut(c, Last(run), uid, 1) && Last(run).tasks[uid].request == r
        ensures CanBeAnswered(c, run, uid)
      {
        OneSegmentIsAnswerable(c, run, uid, r);
      }
    } else if r.op == Write {
      var run := UnansweredWrite(c, r);
      NotAlwaysAnswerable(c, r, run);
    } else {
      var run := UnansweredRead(c, r);
      NotAlwaysAnswerable(c, r, run);
    }
  }

  lemma OneSegmentIsAnswerable(c: Config, run: Run, uid: nat, r: Request)
    requires ValidConfig(c) && IsRun(c, run) && AllOut(c, Last(run), uid, 1) && Last(run).tasks[uid].request == r
    requires SmallSlices(c, r) && (r.op == Write ==> c.n >= 2)
    ensures CanBeAnswered(c, run, uid)
  {
    if r.op == Write {
      WriteCanBeAnsweredExactly(c, run, uid, 1);
    } else {
      OneSegmentReadIsHopeful(c, run, uid);
      ReadCanBeAnsweredExactly(c, run, uid, 1);
    }
  }
}
