/** Tickets inside a run: what a ticket holds is what its fired callbacks told it, so that
    the laws of tickets become laws of replies. */
module RaidTickets {
  import opened Types
  import opened Codec
  import opened MirrorTicket
  import opened MasterProxies
  import opened RaidSystem
  import opened RaidInvariant
  import opened RaidOrigin
  import opened RaidSafety

  /** At step `t` the callback is fired. */
  ghost predicate FiredAt(run: Run, t: nat, call: Callback)
    requires |run.states| == |run.labels| + 1
  {
    && t < |run.labels|
    && FiredBy(run.states[t], run.labels[t]).Some? && FiredBy(run.states[t], run.labels[t]).value.0 == call
  }

  ghost predicate FiredBefore(run: Run, now: nat, call: Callback)
    requires |run.states| == |run.labels| + 1
  {
    exists t: nat :: t < now && FiredAt(run, t, call)
  }

  /** What a step tells the ticket of `uid`. */
  function Told(s: System, l: Label, uid: nat): seq<Response>
  {
    match FiredBy(s, l)
    case None => []
    case Some((call, answer)) =>
      if call.ticket == uid then [Response(call.segment, call.role, Some(answer))] else []
  }

  /** Everything the ticket of `uid` has been told in the run, in order. */
  function Heard(run: Run, now: nat, uid: nat): seq<Response>
    requires |run.states| == |run.labels| + 1 && now <= |run.labels|
  {
    if now == 0 then [] else Heard(run, now - 1, uid) + Told(run.states[now - 1], run.labels[now - 1], uid)
  }

  // ----- A ticket is what it has heard -----------------------------------------------------------

  lemma FiredTicketIsOpen(c: Config, s: System, l: Label)
    requires ValidConfig(c) && Callbacks(s) && Enabled(c, s, l) && FiredBy(s, l).Some?
    ensures var call := FiredBy(s, l).value.0;
      && call.ticket in s.state && call.segment < |s.state[call.ticket].segments|
      && l.Wakeup? && call.ticket in s.pending[l.minion] && s.pending[l.minion][call.ticket] == call
  {
    var uid := Deliver(l.packet).value.uid;
    assert CallbackOk(s, l.minion, uid);
  }

  /** How a step changes one ticket. */
  ghost predicate Heeds(before: map<nat, State>, after: map<nat, State>, uid: nat, told: seq<Response>, first: State)
  {
    && (uid in before ==>
          uid in after && after[uid] == if told == [] then before[uid] else Accept(before[uid], told[0]))
    && (uid !in before && uid in after ==> after[uid] == first)
  }

  lemma TicketHeeds(c: Config, s: System, l: Label, uid: nat)
    requires ValidConfig(c) && Tasks(c, s) && Callbacks(s) && Enabled(c, s, l) && uid in s.tasks
    ensures var r := s.tasks[uid].request;
      Heeds(s.state, Apply(c, s, l).state, uid, Told(s, l, uid), Fresh(r.op, r.length, SegmentsOf(c, r)))
  {
    match l
    case NewRequest(r) =>
    case Announce(u) =>
    case OpenTicket(u) => OpenedTicket(c, s, u);
    case Send(u, trailer) => SendTickets(c, s, u, trailer);
    case Serve(m, packet, good, noise) => ServeTickets(s, m, packet, good, noise);
    case Wakeup(m, packet, noise) =>
      var w := Wake(s.pending[m], Deliver(packet));
      if w.call.Some? {
        FiredTicketIsOpen(c, s, l);
        CallTicket(s.(pending := s.pending[m := w.pending]), w.call.value.0, w.call.value.1, noise);
      }
  }

  /** The ticket of a request that has heard `heard`. */
  function AfterHearing(c: Config, r: Request, heard: seq<Response>): State
    requires ValidConfig(c)
  {
    MirrorTicket.Run(Fresh(r.op, r.length, SegmentsOf(c, r)), heard)
  }

  /** The ticket of `uid`, if there is one, is a new one that has heard what it was told. */
  ghost predicate IsHeard(c: Config, run: Run, now: nat, uid: nat)
    requires ValidConfig(c) && |run.states| == |run.labels| + 1 && now < |run.states|
  {
    var s, heard := run.states[now], Heard(run, now, uid);
    && (uid !in s.state ==> heard == [])
    && (uid in s.state ==> uid in s.tasks && s.state[uid] == AfterHearing(c, s.tasks[uid].request, heard))
  }

  lemma RunSnoc(t: State, rs: seq<Response>, r: Response)
    ensures MirrorTicket.Run(t, rs + [r]) == Accept(MirrorTicket.Run(t, rs), r)
  {
    assert (rs + [r])[..|rs|] == rs;
  }

  lemma HeardStep(c: Config, run: Run, now: nat, uid: nat)
    requires ValidConfig(c) && IsRun(c, run) && now < |run.labels| && uid in run.states[now].tasks
    ensures uid in run.states[now + 1].tasks
    ensures run.states[now + 1].tasks[uid].request == run.states[now].tasks[uid].request
    ensures var r := run.states[now].tasks[uid].request;
      Heeds(run.states[now].state, run.states[now + 1].state, uid, Told(run.states[now], run.labels[now], uid),
            Fresh(r.op, r.length, SegmentsOf(c, r)))
    ensures uid !in run.states[now].state ==> Told(run.states[now], run.labels[now], uid) == []
  {
    RunKeeps(c, run, now);
    StepOfRun(c, run, now);
    RunRequests(c, run, now);
    TicketHeeds(c, run.states[now], run.labels[now], uid);
    if FiredBy(run.states[now], run.labels[now]).Some? {
      FiredTicketIsOpen(c, run.states[now], run.labels[now]);
    }
  }

  /** Requests stay what they are. */
  lemma RunRequests(c: Config, run: Run, now: nat)
    requires ValidConfig(c) && IsRun(c, run) && now < |run.labels|
    ensures forall uid | uid in run.states[now].tasks ::
      && uid in run.states[now + 1].tasks
      && run.states[now + 1].tasks[uid].request == run.states[now].tasks[uid].request
  {
    RunFollows(c, run, now);
  }

  lemma NoTicketYet(c: Config, run: Run, now: nat, uid: nat)
    requires ValidConfig(c) && IsRun(c, run) && now < |run.labels| && uid !in run.states[now].tasks
    ensures uid !in run.states[now + 1].state && Told(run.states[now], run.labels[now], uid) == []
  {
    RunKeeps(c, run, now);
    RunKeeps(c, run, now + 1);
    StepOfRun(c, run, now);
    if FiredBy(run.states[now], run.labels[now]).Some? {
      FiredTicketIsOpen(c, run.states[now], run.labels[now]);
    }
    if uid in run.states[now + 1].state {
      TicketOfOldTask(c, run.states[now], run.labels[now], uid);
    }
  }

  lemma TicketOfOldTask(c: Config, s: System, l: Label, uid: nat)
    requires ValidConfig(c) && Domains(s) && Tasks(c, s) && Enabled(c, s, l) && uid in Apply(c, s, l).state
    ensures uid in s.tasks
  {
    match l
    case NewRequest(r) =>
    case Announce(u) =>
    case OpenTicket(u) => OpenedTicket(c, s, u);
    case Send(u, trailer) => SendTickets(c, s, u, trailer);
    case Serve(m, packet, good, noise) => ServeTickets(s, m, packet, good, noise);
    case Wakeup(m, packet, noise) =>
      var w := Wake(s.pending[m], Deliver(packet));
      if w.call.Some? {
        CallTicket(s.(pending := s.pending[m := w.pending]), w.call.value.0, w.call.value.1, noise);
      }
  }

  lemma HeardNext(c: Config, run: Run, now: nat, uid: nat)
    requires ValidConfig(c) && IsRun(c, run) && now < |run.labels| && IsHeard(c, run, now, uid)
    ensures IsHeard(c, run, now + 1, uid)
  {
    var before, told := Heard(run, now, uid), Told(run.states[now], run.labels[now], uid);
    assert Heard(run, now + 1, uid) == before + told;
    if uid in run.states[now].tasks {
      HeardStep(c, run, now, uid);
      if told != [] {
        assert told == [told[0]];
        var r := run.states[now].tasks[uid].request;
        RunSnoc(Fresh(r.op, r.length, SegmentsOf(c, r)), before, told[0]);
      } else {
        assert before + told == before;
      }
    } else {
      NoTicketYet(c, run, now, uid);
      StateHasTask(c, run, now, uid);
    }
  }

  /** In every state of every run a ticket is what the fired callbacks have made of it. */
  lemma {:induction false} TicketIsHeard(c: Config, run: Run, now: nat, uid: nat)
    requires ValidConfig(c) && IsRun(c, run) && now < |run.states|
    ensures IsHeard(c, run, now, uid)
  {
    if now > 0 {
      TicketIsHeard(c, run, now - 1, uid);
      HeardNext(c, run, now - 1, uid);
    }
  }

  lemma StateHasTask(c: Config, run: Run, now: nat, uid: nat)
    requires ValidConfig(c) && IsRun(c, run) && now < |run.states|
    ensures uid in run.states[now].state ==> uid in run.states[now].tasks
  {
    RunKeeps(c, run, now);
  }

  // ----- It hears each callback at most once -----------------------------------------------------

  /** What was heard was told by a fired callback. */
  lemma {:induction false} HeardWasTold(run: Run, now: nat, uid: nat, k: nat) returns (t: nat)
    requires |run.states| == |run.labels| + 1 && now <= |run.labels| && k < |Heard(run, now, uid)|
    ensures t < now && Told(run.states[t], run.labels[t], uid) == [Heard(run, now, uid)[k]]
    ensures FiredAt(run, t, Callback(uid, Heard(run, now, uid)[k].segment, Heard(run, now, uid)[k].role))
  {
    if k < |Heard(run, now - 1, uid)| {
      t := HeardWasTold(run, now - 1, uid, k);
    } else {
      t := now - 1;
    }
  }

  lemma FiringTells(s: System, l: Label, call: Callback)
    requires FiredBy(s, l).Some? && FiredBy(s, l).value.0 == call
    ensures Told(s, l, call.ticket) == [Response(call.segment, call.role, Some(FiredBy(s, l).value.1))]
  {
  }

  lemma HeardGrowsOnce(run: Run, now: nat, uid: nat)
    requires |run.states| == |run.labels| + 1 && now < |run.labels|
    ensures Heard(run, now, uid) <= Heard(run, now + 1, uid)
  {
  }

  lemma PrefixThrough(a: seq<Response>, b: seq<Response>, d: seq<Response>)
    requires a <= b && b <= d
    ensures a <= d
  {
  }

  lemma {:induction false} HeardGrows(run: Run, t: nat, now: nat, uid: nat)
    requires |run.states| == |run.labels| + 1 && t <= now <= |run.labels|
    ensures Heard(run, t, uid) <= Heard(run, now, uid)
  {
    if t < now {
      HeardGrows(run, t, now - 1, uid);
      HeardGrowsOnce(run, now - 1, uid);
      PrefixThrough(Heard(run, t, uid), Heard(run, now - 1, uid), Heard(run, now, uid));
    }
  }

  lemma ToldIsHeard(run: Run, now: nat, t: nat, uid: nat, told: Response) returns (k: nat)
    requires |run.states| == |run.labels| + 1 && t < now <= |run.labels|
    requires Told(run.states[t], run.labels[t], uid) == [told]
    ensures k < |Heard(run, now, uid)| && Heard(run, now, uid)[k] == told
  {
    k := |Heard(run, t, uid)|;
    assert Heard(run, t + 1, uid)[k] == told;
    HeardGrows(run, t + 1, now, uid);
  }

  lemma FiredIsHeard(run: Run, now: nat, t: nat, call: Callback) returns (k: nat)
    requires |run.states| == |run.labels| + 1 && t < now <= |run.labels| && FiredAt(run, t, call)
    ensures k < |Heard(run, now, call.ticket)|
    ensures Heard(run, now, call.ticket)[k]
         == Response(call.segment, call.role, Some(FiredBy(run.states[t], run.labels[t]).value.1))
  {
    FiringTells(run.states[t], run.labels[t], call);
    k := ToldIsHeard(run, now, t, call.ticket,
                     Response(call.segment, call.role, Some(FiredBy(run.states[t], run.labels[t]).value.1)));
  }

  /** A mirror has answered as far as the ticket knows exactly if its callback was fired. */
  lemma AnsweredIsFired(run: Run, now: nat, uid: nat, i: nat, role: Role)
    requires |run.states| == |run.labels| + 1 && now <= |run.labels|
    ensures Answered(Heard(run, now, uid), i, role) <==> FiredBefore(run, now, Callback(uid, i, role))
  {
    var heard := Heard(run, now, uid);
    if Answered(heard, i, role) {
      var k :| 0 <= k < |heard| && IsAnswer(heard[k], i, role);
      var t := HeardWasTold(run, now, uid, k);
      assert FiredAt(run, t, Callback(uid, i, role));
    }
    if FiredBefore(run, now, Callback(uid, i, role)) {
      var t: nat :| t < now && FiredAt(run, t, Callback(uid, i, role));
      var k := FiredIsHeard(run, now, t, Callback(uid, i, role));
      assert IsAnswer(heard[k], i, role);
    }
  }

  lemma ToldIsNew(c: Config, run: Run, now: nat, uid: nat, j: nat)
    requires ValidConfig(c) && IsRun(c, run) && now < |run.labels| && j < |Heard(run, now, uid)|
    requires Told(run.states[now], run.labels[now], uid) != []
    ensures var r, told := Heard(run, now, uid)[j], Told(run.states[now], run.labels[now], uid)[0];
      r.segment != told.segment || r.role != told.role
  {
    var t := HeardWasTold(run, now, uid, j);
    CallbackFiresOnce(c, run, t, now);
  }

  lemma NextDistinct(c: Config, run: Run, now: nat, uid: nat)
    requires ValidConfig(c) && IsRun(c, run) && now < |run.labels| && Distinct(Heard(run, now, uid))
    ensures Distinct(Heard(run, now + 1, uid))
  {
    var before, told := Heard(run, now, uid), Told(run.states[now], run.labels[now], uid);
    if told != [] {
      forall j: nat | j < |before|
        ensures before[j].segment != told[0].segment || before[j].role != told[0].role
      {
        ToldIsNew(c, run, now, uid, j);
      }
      DistinctSnoc(before, told[0]);
      assert told == [told[0]];
    } else {
      assert before + told == before;
    }
  }

  /** A ticket is told at most once about each mirror of each segment. */
  lemma {:induction false} HeardDistinct(c: Config, run: Run, now: nat, uid: nat)
    requires ValidConfig(c) && IsRun(c, run) && now < |run.states|
    ensures Distinct(Heard(run, now, uid))
  {
    if now > 0 {
      HeardDistinct(c, run, now - 1, uid);
      NextDistinct(c, run, now - 1, uid);
    }
  }

  lemma DistinctSnoc(rs: seq<Response>, r: Response)
    requires Distinct(rs) && forall j: nat | j < |rs| :: rs[j].segment != r.segment || rs[j].role != r.role
    ensures Distinct(rs + [r])
  {
  }

  lemma ToldInRange(c: Config, run: Run, now: nat, uid: nat)
    requires ValidConfig(c) && IsRun(c, run) && now < |run.labels|
    requires Told(run.states[now], run.labels[now], uid) != []
    ensures uid in run.states[now].tasks
    ensures Told(run.states[now], run.labels[now], uid)[0].segment
      < |SegmentsOf(c, run.states[now].tasks[uid].request)|
  {
    RunKeeps(c, run, now);
    StepOfRun(c, run, now);
    FiredTicketIsOpen(c, run.states[now], run.labels[now]);
    assert TaskOk(c, run.states[now], uid);
  }

  predicate Below(rs: seq<Response>, count: nat)
  {
    forall k | 0 <= k < |rs| :: rs[k].segment < count
  }

  lemma BelowSnoc(rs: seq<Response>, told: seq<Response>, count: nat)
    requires Below(rs, count) && |told| <= 1 && (told != [] ==> told[0].segment < count)
    ensures Below(rs + told, count)
  {
  }

  lemma ToldOnce(s: System, l: Label, uid: nat)
    ensures |Told(s, l, uid)| <= 1
  {
  }

  lemma NextInRange(c: Config, run: Run, now: nat, uid: nat, count: nat)
    requires ValidConfig(c) && IsRun(c, run) && now < |run.labels|
    requires uid in run.states[now].tasks && count == |SegmentsOf(c, run.states[now].tasks[uid].request)|
    requires Below(Heard(run, now, uid), count)
    ensures Below(Heard(run, now + 1, uid), count)
  {
    var told := Told(run.states[now], run.labels[now], uid);
    ToldOnce(run.states[now], run.labels[now], uid);
    if told != [] {
      ToldInRange(c, run, now, uid);
    }
    BelowSnoc(Heard(run, now, uid), told, count);
  }

  lemma {:induction false} NothingHeard(c: Config, run: Run, now: nat, uid: nat)
    requires ValidConfig(c) && IsRun(c, run) && now < |run.states| && uid !in run.states[now].tasks
    ensures Heard(run, now, uid) == []
  {
    if now > 0 {
      RunRequests(c, run, now - 1);
      NothingHeard(c, run, now - 1, uid);
      NoTicketYet(c, run, now - 1, uid);
    }
  }

  /** Whatever a ticket hears is about one of its segments. */
  lemma {:induction false} HeardInRange(c: Config, run: Run, now: nat, uid: nat, count: nat)
    requires ValidConfig(c) && IsRun(c, run) && now < |run.states|
    requires uid in run.states[now].tasks && count == |SegmentsOf(c, run.states[now].tasks[uid].request)|
    ensures Below(Heard(run, now, uid), count)
  {
    if now > 0 {
      RunRequests(c, run, now - 1);
      if uid in run.states[now - 1].tasks {
        HeardInRange(c, run, now - 1, uid, count);
        NextInRange(c, run, now - 1, uid, count);
      } else {
        NoTicketYet(c, run, now - 1, uid);
        NothingHeard(c, run, now - 1, uid);
      }
    }
  }

  // ----- When a request is answered, and how -----------------------------------------------------

  /** The answers that the callbacks of request `uid` got settle it. */
  ghost predicate IsSettled(c: Config, run: Run, now: nat, uid: nat)
    requires ValidConfig(c) && |run.states| == |run.labels| + 1 && now < |run.states|
    requires uid in run.states[now].tasks
  {
    var r := run.states[now].tasks[uid].request;
    && run.states[now].tasks[uid].phase.Sending? && |SegmentsOf(c, r)| > 0
    && Settled(r.op, Heard(run, now, uid), |SegmentsOf(c, r)|)
  }

  lemma CompletedIsSettled(c: Config, run: Run, now: nat, uid: nat)
    requires ValidConfig(c) && IsRun(c, run) && now < |run.states| && uid in run.states[now].tasks
    ensures uid in run.states[now].state && run.states[now].state[uid].completed <==> IsSettled(c, run, now, uid)
  {
    RunKeeps(c, run, now);
    assert TaskOk(c, run.states[now], uid);
    TicketIsHeard(c, run, now, uid);
    HeardDistinct(c, run, now, uid);
    var r := run.states[now].tasks[uid].request;
    Completion(r.op, r.length, SegmentsOf(c, r), Heard(run, now, uid));
  }

  /** In every state of every run a request has been answered exactly if it was accepted, is
      not empty, and the answers its callbacks got settle every segment. */
  lemma AnsweredExactly(c: Config, run: Run, now: nat, uid: nat)
    requires ValidConfig(c) && IsRun(c, run) && now < |run.states| && uid in run.states[now].tasks
    ensures Replied(run.states[now], uid) <==> IsSettled(c, run, now, uid)
  {
    Bookkeeping(c, run, now);
    CompletedIsSettled(c, run, now, uid);
  }

  /** Only requests that are in range and not empty are ever answered; an empty one opens a
      ticket that no answer completes, one out of range opens none. */
  lemma AnsweredInRange(c: Config, run: Run, now: nat, uid: nat)
    requires ValidConfig(c) && IsRun(c, run) && now < |run.states| && uid in run.states[now].tasks
    requires Replied(run.states[now], uid)
    ensures var r := run.states[now].tasks[uid].request; r.length > 0 && r.offset + r.length <= c.n * c.chunk
  {
    AnsweredExactly(c, run, now, uid);
    RunKeeps(c, run, now);
    assert TaskOk(c, run.states[now], uid);
  }

  /** Both callbacks of each of the first `count` segments have fired. */
  ghost predicate AllFired(run: Run, now: nat, uid: nat, count: nat)
    requires |run.states| == |run.labels| + 1
  {
    forall i: nat, role: Role | i < count :: FiredBefore(run, now, Callback(uid, i, role))
  }

  lemma SettledIsAllFired(run: Run, now: nat, uid: nat, count: nat)
    requires |run.states| == |run.labels| + 1 && now <= |run.labels|
    ensures Settled(Write, Heard(run, now, uid), count) <==> AllFired(run, now, uid, count)
  {
    if Settled(Write, Heard(run, now, uid), count) {
      forall i: nat, role: Role | i < count
        ensures FiredBefore(run, now, Callback(uid, i, role))
      {
        assert Covered(Write, Heard(run, now, uid), i);
        AnsweredIsFired(run, now, uid, i, role);
      }
    }
    if AllFired(run, now, uid, count) {
      forall i: nat | i < count
        ensures Covered(Write, Heard(run, now, uid), i)
      {
        AnsweredIsFired(run, now, uid, i, Primary);
        AnsweredIsFired(run, now, uid, i, Backup);
      }
    }
  }

  /** A write has been answered exactly if it was accepted, is not empty, and every one of
      its callbacks has fired. */
  lemma WriteAnsweredExactly(c: Config, run: Run, now: nat, uid: nat)
    requires ValidConfig(c) && IsRun(c, run) && now < |run.states| && uid in run.states[now].tasks
    requires run.states[now].tasks[uid].request.op == Write
    ensures var task := run.states[now].tasks[uid]; var count := |SegmentsOf(c, task.request)|;
      Replied(run.states[now], uid) <==>
      task.phase.Sending? && count > 0 && AllFired(run, now, uid, count)
  {
    AnsweredExactly(c, run, now, uid);
    SettledIsAllFired(run, now, uid, |SegmentsOf(c, run.states[now].tasks[uid].request)|);
  }

  lemma ReplyOfTicket(c: Config, run: Run, now: nat, i: nat)
    requires ValidConfig(c) && IsRun(c, run) && now < |run.states| && i < |run.states[now].replies|
    ensures var s, uid := run.states[now], run.states[now].replies[i].uid;
      && uid in s.tasks && uid in s.state && IsSettled(c, run, now, uid)
      && s.state[uid] == AfterHearing(c, s.tasks[uid].request, Heard(run, now, uid))
      && ReplyCarries(s.replies[i], s.state[uid]) && TicketMatches(c, s.state[uid], s.tasks[uid].request)
  {
    RunKeeps(c, run, now);
    var s := run.states[now];
    assert ReplyOk(s, s.replies[i]);
    assert TaskOk(c, s, s.replies[i].uid);
    CompletedIsSettled(c, run, now, s.replies[i].uid);
    TicketIsHeard(c, run, now, s.replies[i].uid);
  }

  lemma SettledWriteIsFull(c: Config, run: Run, now: nat, uid: nat)
    requires ValidConfig(c) && IsRun(c, run) && now < |run.states| && uid in run.states[now].tasks
    requires IsSettled(c, run, now, uid) && run.states[now].tasks[uid].request.op == Write
    ensures FullSet(Heard(run, now, uid), |SegmentsOf(c, run.states[now].tasks[uid].request)|)
  {
    HeardDistinct(c, run, now, uid);
    var count := |SegmentsOf(c, run.states[now].tasks[uid].request)|;
    HeardInRange(c, run, now, uid, count);
    forall i | 0 <= i < count
      ensures Answered(Heard(run, now, uid), i, Primary) && Answered(Heard(run, now, uid), i, Backup)
    {
      assert Covered(Write, Heard(run, now, uid), i);
    }
  }

  /** A write's reply is without error exactly if every callback got an OK answer. */
  lemma WriteReplyVerdict(c: Config, run: Run, now: nat, i: nat)
    requires ValidConfig(c) && IsRun(c, run) && now < |run.states| && i < |run.states[now].replies|
    requires var s := run.states[now];
      s.replies[i].uid in s.tasks && s.tasks[s.replies[i].uid].request.op == Write
    ensures run.states[now].replies[i].error == 0 <==> EveryAnswerOk(Heard(run, now, run.states[now].replies[i].uid))
  {
    ReplyOfTicket(c, run, now, i);
    var uid := run.states[now].replies[i].uid;
    var r := run.states[now].tasks[uid].request;
    SettledWriteIsFull(c, run, now, uid);
    WriteVerdict(r.length, SegmentsOf(c, r), Heard(run, now, uid));
  }

  /** A read's reply is without error exactly if every segment had an OK answer among those
      that settled it; that is "every segment has an OK mirror" except exactly when an OK
      primary was heard after the read was settled by its failed backup. */
  lemma ReadReplyVerdict(c: Config, run: Run, now: nat, i: nat)
    requires ValidConfig(c) && IsRun(c, run) && now < |run.states| && i < |run.states[now].replies|
    requires var s := run.states[now];
      s.replies[i].uid in s.tasks && s.tasks[s.replies[i].uid].request.op == Read
    ensures var s, uid := run.states[now], run.states[now].replies[i].uid;
      var heard, count := Heard(run, now, uid), |SegmentsOf(c, s.tasks[uid].request)|;
      var settled := SettledAt(Read, heard, count);
      && (s.replies[i].error == 0 <==> EveryMirrorPairOk(heard[..settled], count))
      && ((s.replies[i].error == 0 <==> EveryMirrorPairOk(heard, count)) <==>
          !(EveryMirrorPairOk(heard, count) && exists j :: 0 <= j < count && LatePrimary(heard, settled, j)))
  {
    ReplyOfTicket(c, run, now, i);
    var uid := run.states[now].replies[i].uid;
    var r := run.states[now].tasks[uid].request;
    HeardDistinct(c, run, now, uid);
    ReadVerdict(r.length, SegmentsOf(c, r), Heard(run, now, uid));
    FailoverExact(r.length, SegmentsOf(c, r), Heard(run, now, uid));
  }
}
