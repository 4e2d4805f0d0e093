/** Safety of the protocol over every run: callbacks fire at most once and with genuine
    answers, and an OK reply tells the truth about the minions' files. */
module RaidSafety {
  import opened Types
  import opened Arithmetic
  import opened StripeSplitter
  import opened Codec
  import opened MirrorTicket
  import opened MinionManager
  import opened MasterProxies
  import opened RaidSystem
  import opened RaidInvariant
  import opened RaidOrigin

  /** The position of a callback among the sends of its request. */
  function SendOf(call: Callback): nat
  {
    2 * call.segment + if call.role == Primary then 0 else 1
  }

  /** The minion a callback was registered for. */
  function TargetOf(c: Config, r: Request, call: Callback): nat
    requires ValidConfig(c) && call.segment < |SegmentsOf(c, r)|
  {
    var seg := SegmentsOf(c, r)[call.segment];
    if call.role == Primary then seg.primary else seg.backup
  }

  /** A pending callback was registered by one of the sends made so far, and waits at
      the minion that send went to. */
  ghost predicate WaitsAtTarget(c: Config, s: System, m: nat, uid: nat)
    requires ValidConfig(c) && m < |s.pending| && uid in s.pending[m]
  {
    var call := s.pending[m][uid];
    && uid in s.tasks && s.tasks[uid].phase.Sending?
    && call.segment < |SegmentsOf(c, s.tasks[uid].request)|
    && SendOf(call) < s.tasks[uid].phase.sent
    && TargetOf(c, s.tasks[uid].request, call) == m
  }

  ghost predicate AllWaitAtTarget(c: Config, s: System)
    requires ValidConfig(c)
  {
    forall m, uid | 0 <= m < |s.pending| && uid in s.pending[m] :: WaitsAtTarget(c, s, m, uid)
  }

  /** The callback a step fires, with the answer it passes on. */
  function FiredBy(s: System, l: Label): Option<(Callback, Answer)>
  {
    if l.Wakeup? && l.minion < |s.pending| then Wake(s.pending[l.minion], Deliver(l.packet)).call else None
  }

  // ----- What the steps do to the pending maps ------------------------------------------------

  /** A step that is not a send only takes the fired callback out. */
  lemma OtherStepsForget(c: Config, s: System, l: Label)
    requires ValidConfig(c) && Enabled(c, s, l) && !l.Send?
    ensures var s' := Apply(c, s, l);
      && |s'.pending| == |s.pending|
      && (forall m | 0 <= m < |s.pending| ::
            s'.pending[m] == if l.Wakeup? && l.minion == m && FiredBy(s, l).Some? then
                               Wake(s.pending[m], Deliver(l.packet)).pending
                             else s.pending[m])
  {
    match l
    case NewRequest(r) =>
    case Announce(uid) =>
    case OpenTicket(uid) =>
    case Serve(m, packet, good, noise) =>
    case Wakeup(m, packet, noise) =>
      var w := Wake(s.pending[m], Deliver(packet));
      if w.call.Some? {
        CallFollows(s.(pending := s.pending[m := w.pending]), w.call.value.0, w.call.value.1, noise);
      }
  }

  /** The callback that a send registers. */
  function NewCallback(uid: nat, k: nat): (call: Callback)
    ensures SendOf(call) == k
  {
    Callback(uid, k / 2, if k % 2 == 0 then Primary else Backup)
  }

  lemma SendGoesToTarget(c: Config, r: Request, uid: nat, k: nat, trailer: Byte)
    requires ValidConfig(c) && k < 2 * |SegmentsOf(c, r)| && BufferFits(r.op, SegmentsOf(c, r), r.data)
    ensures var out, call := OutgoingOf(c, r, uid, k, trailer), NewCallback(uid, k);
      && call == Callback(uid, out.segment, out.role)
      && call.segment < |SegmentsOf(c, r)|
      && out.minion == TargetOf(c, r, call)
  {
  }

  lemma SendRegisters(c: Config, s: System, uid: nat, trailer: Byte)
    requires ValidConfig(c) && Shape(c, s) && Tasks(c, s) && CanSend(c, s, uid)
    ensures var s', k := AfterSend(c, s, uid, trailer), s.tasks[uid].phase.sent;
      var call := NewCallback(uid, k);
      && call.segment < |SegmentsOf(c, s.tasks[uid].request)|
      && var m := TargetOf(c, s.tasks[uid].request, call);
         && m < |s.pending|
         && |s'.pending| == |s.pending|
         && (forall i | 0 <= i < |s.pending| ::
               s'.pending[i] == if i == m then s.pending[m][uid := call] else s.pending[i])
         && s'.tasks == s.tasks[uid := s.tasks[uid].(phase := Sending(k + 1))]
  {
    assert TaskOk(c, s, uid);
    var r, k := s.tasks[uid].request, s.tasks[uid].phase.sent;
    SendInRange(c, r, uid, k, trailer);
    SendGoesToTarget(c, r, uid, k, trailer);
    SendPending(c, s, uid, trailer, OutgoingOf(c, r, uid, k, trailer));
    SendCounts(c, s, uid, trailer);
  }

  lemma SendPending(c: Config, s: System, uid: nat, trailer: Byte, out: Outgoing)
    requires ValidConfig(c) && CanSend(c, s, uid)
    requires out == OutgoingOf(c, s.tasks[uid].request, uid, s.tasks[uid].phase.sent, trailer)
    requires out.minion < |s.pending|
    ensures var s' := AfterSend(c, s, uid, trailer);
      && |s'.pending| == |s.pending|
      && (forall i | 0 <= i < |s.pending| ::
            s'.pending[i] == if i == out.minion then
                               s.pending[i][uid := Callback(uid, out.segment, out.role)]
                             else s.pending[i])
  {
  }

  lemma SendCounts(c: Config, s: System, uid: nat, trailer: Byte)
    requires ValidConfig(c) && CanSend(c, s, uid)
    requires OutgoingOf(c, s.tasks[uid].request, uid, s.tasks[uid].phase.sent, trailer).minion < |s.pending|
    ensures AfterSend(c, s, uid, trailer).tasks
      == s.tasks[uid := s.tasks[uid].(phase := Sending(s.tasks[uid].phase.sent + 1))]
  {
  }

  lemma WaitStays(c: Config, s: System, s': System, m: nat, uid: nat)
    requires ValidConfig(c) && Follows(s, s') && m < |s.pending| && m < |s'.pending|
    requires uid in s.pending[m] && WaitsAtTarget(c, s, m, uid)
    requires uid in s'.pending[m] && s'.pending[m][uid] == s.pending[m][uid]
    ensures WaitsAtTarget(c, s', m, uid)
  {
  }

  lemma SendKeepsTargets(c: Config, s: System, uid: nat, trailer: Byte)
    requires ValidConfig(c) && Shape(c, s) && Tasks(c, s) && CanSend(c, s, uid) && AllWaitAtTarget(c, s)
    ensures AllWaitAtTarget(c, AfterSend(c, s, uid, trailer))
  {
    var s' := AfterSend(c, s, uid, trailer);
    SendRegisters(c, s, uid, trailer);
    SendFollows(c, s, uid, trailer);
    var call := NewCallback(uid, s.tasks[uid].phase.sent);
    var target := TargetOf(c, s.tasks[uid].request, call);
    forall m, u | 0 <= m < |s'.pending| && u in s'.pending[m]
      ensures WaitsAtTarget(c, s', m, u)
    {
      if !(m == target && u == uid) {
        assert WaitsAtTarget(c, s, m, u);
        WaitStays(c, s, s', m, u);
      }
    }
  }

  lemma OthersKeepTargets(c: Config, s: System, l: Label)
    requires ValidConfig(c) && Shape(c, s) && Tasks(c, s) && Enabled(c, s, l) && !l.Send? && AllWaitAtTarget(c, s)
    ensures AllWaitAtTarget(c, Apply(c, s, l))
  {
    var s' := Apply(c, s, l);
    OtherStepsForget(c, s, l);
    FreshUid(c, s);
    StepFollows(c, s, l);
    forall m, u | 0 <= m < |s'.pending| && u in s'.pending[m]
      ensures WaitsAtTarget(c, s', m, u)
    {
      assert u in s.pending[m] && s'.pending[m][u] == s.pending[m][u];
      assert WaitsAtTarget(c, s, m, u);
      WaitStays(c, s, s', m, u);
    }
  }

  lemma StepKeepsTargets(c: Config, s: System, l: Label)
    requires ValidConfig(c) && Inv(c, s) && Enabled(c, s, l) && AllWaitAtTarget(c, s)
    ensures AllWaitAtTarget(c, Apply(c, s, l))
  {
    if l.Send? {
      SendKeepsTargets(c, s, l.uid, l.trailer);
    } else {
      OthersKeepTargets(c, s, l);
    }
  }

  lemma {:induction false} CallbacksWaitAtTarget(c: Config, run: Run, t: nat)
    requires ValidConfig(c) && IsRun(c, run) && t < |run.states|
    ensures AllWaitAtTarget(c, run.states[t])
  {
    if t > 0 {
      CallbacksWaitAtTarget(c, run, t - 1);
      RunKeeps(c, run, t - 1);
      StepOfRun(c, run, t - 1);
      StepKeepsTargets(c, run.states[t - 1], run.labels[t - 1]);
    }
  }

  // ----- At most once, and only with genuine answers -------------------------------------------

  /** The callback has been registered and waits nowhere any more. */
  ghost predicate Spent(s: System, call: Callback)
  {
    && call.ticket in s.tasks && s.tasks[call.ticket].phase.Sending?
    && SendOf(call) < s.tasks[call.ticket].phase.sent
    && forall m | 0 <= m < |s.pending| && call.ticket in s.pending[m] ::
         s.pending[m][call.ticket] != call
  }

  lemma FiringSpends(c: Config, s: System, l: Label)
    requires ValidConfig(c) && Shape(c, s) && Tasks(c, s) && Callbacks(s) && AllWaitAtTarget(c, s) && Enabled(c, s, l)
    requires FiredBy(s, l).Some?
    ensures Spent(Apply(c, s, l), FiredBy(s, l).value.0)
    ensures !Spent(s, FiredBy(s, l).value.0)
  {
    var call, m := FiredBy(s, l).value.0, l.minion;
    var uid := Deliver(l.packet).value.uid;
    assert uid in s.pending[m] && s.pending[m][uid] == call;
    assert CallbackOk(s, m, uid) && WaitsAtTarget(c, s, m, uid);
    OtherStepsForget(c, s, l);
    FreshUid(c, s);
    StepFollows(c, s, l);
    var s' := Apply(c, s, l);
    forall k | 0 <= k < |s'.pending| && uid in s'.pending[k]
      ensures s'.pending[k][uid] != call
    {
      assert k != m;
      assert WaitsAtTarget(c, s, k, uid);
    }
  }

  lemma SpentStays(c: Config, s: System, l: Label, call: Callback)
    requires ValidConfig(c) && Shape(c, s) && Tasks(c, s) && Enabled(c, s, l) && Spent(s, call)
    ensures Spent(Apply(c, s, l), call)
  {
    FreshUid(c, s);
    StepFollows(c, s, l);
    var s' := Apply(c, s, l);
    if l.Send? {
      SendRegisters(c, s, l.uid, l.trailer);
      assert NewCallback(l.uid, s.tasks[l.uid].phase.sent) != call;
    } else {
      OtherStepsForget(c, s, l);
      forall m | 0 <= m < |s'.pending| && call.ticket in s'.pending[m]
        ensures s'.pending[m][call.ticket] != call
      {
        assert call.ticket in s.pending[m];
      }
    }
  }

  lemma FiringSpendsAt(c: Config, run: Run, t: nat)
    requires ValidConfig(c) && IsRun(c, run) && t < |run.labels|
    requires FiredBy(run.states[t], run.labels[t]).Some?
    ensures Spent(run.states[t + 1], FiredBy(run.states[t], run.labels[t]).value.0)
    ensures !Spent(run.states[t], FiredBy(run.states[t], run.labels[t]).value.0)
  {
    RunKeeps(c, run, t);
    CallbacksWaitAtTarget(c, run, t);
    StepOfRun(c, run, t);
    FiringSpends(c, run.states[t], run.labels[t]);
  }

  lemma SpentStaysAt(c: Config, run: Run, t: nat, call: Callback)
    requires ValidConfig(c) && IsRun(c, run) && t < |run.labels| && Spent(run.states[t], call)
    ensures Spent(run.states[t + 1], call)
  {
    RunKeeps(c, run, t);
    StepOfRun(c, run, t);
    SpentStays(c, run.states[t], run.labels[t], call);
  }

  lemma {:induction false} SpentFrom(c: Config, run: Run, t: nat, now: nat)
    requires ValidConfig(c) && IsRun(c, run) && t < now < |run.states|
    requires FiredBy(run.states[t], run.labels[t]).Some?
    ensures Spent(run.states[now], FiredBy(run.states[t], run.labels[t]).value.0)
  {
    if now == t + 1 {
      FiringSpendsAt(c, run, t);
    } else {
      SpentFrom(c, run, t, now - 1);
      SpentStaysAt(c, run, now - 1, FiredBy(run.states[t], run.labels[t]).value.0);
    }
  }

  /** For every request and every run, a callback fires at most once, however often
      answers are duplicated. */
  lemma CallbackFiresOnce(c: Config, run: Run, t: nat, u: nat)
    requires ValidConfig(c) && IsRun(c, run) && t < u < |run.labels|
    requires FiredBy(run.states[t], run.labels[t]).Some? && FiredBy(run.states[u], run.labels[u]).Some?
    ensures FiredBy(run.states[t], run.labels[t]).value.0 != FiredBy(run.states[u], run.labels[u]).value.0
  {
    SpentFrom(c, run, t, u);
    FiringSpendsAt(c, run, u);
  }

  /** An answer that minion `m` computed earlier from a send of request `uid`. */
  ghost predicate OwnAnswer(c: Config, run: Run, now: nat, m: nat, uid: nat, answer: Answer)
    requires ValidConfig(c) && |run.states| == |run.labels| + 1 && now < |run.states|
  {
    exists o :: Genuine(c, run, now, m, o) && o.id.uid == uid && AnswerOf(o.answer) == Some(answer)
  }

  /** A callback only ever gets an answer to its own request, from the minion it was
      registered for. */
  lemma CallbackGetsOwnAnswer(c: Config, run: Run, t: nat)
    requires ValidConfig(c) && IsRun(c, run) && t < |run.labels|
    requires FiredBy(run.states[t], run.labels[t]).Some?
    ensures var (call, answer) := FiredBy(run.states[t], run.labels[t]).value;
      && call.ticket in run.states[t].pending[run.labels[t].minion]
      && run.states[t].pending[run.labels[t].minion][call.ticket] == call
      && WaitsAtTarget(c, run.states[t], run.labels[t].minion, call.ticket)
      && OwnAnswer(c, run, t, run.labels[t].minion, call.ticket, answer)
  {
    var s, l := run.states[t], run.labels[t];
    StepOfRun(c, run, t);
    RunKeeps(c, run, t);
    CallbacksWaitAtTarget(c, run, t);
    AnswersAreGenuine(c, run, t);
    assert HasOrigin(c, run, t, l.minion, l.packet);
    var o :| Genuine(c, run, t, l.minion, o) && l.packet == Encode(o.answer);
    AnswerArrives(c, run, t, l.minion, o);
    var uid := o.answer.uid;
    assert uid in s.pending[l.minion];
    assert CallbackOk(s, l.minion, uid) && WaitsAtTarget(c, s, l.minion, uid);
  }

  // ----- Requests inside one chunk ---------------------------------------------------------------

  predicate OneChunk(c: Config, r: Request)
    requires ValidConfig(c)
  {
    r.length > 0 && r.offset % c.chunk + r.length <= c.chunk && r.offset + r.length <= c.n * c.chunk
  }

  /** The minion that holds the request's bytes as `role`. */
  function MirrorOf(c: Config, r: Request, role: Role): nat
    requires ValidConfig(c)
  {
    if role == Primary then r.offset / c.chunk else BackupIndex(r.offset / c.chunk, c.n)
  }

  /** A request inside one chunk is one segment: all of it, at `offset % chunk`. */
  lemma OneSegment(c: Config, r: Request)
    requires ValidConfig(c) && OneChunk(c, r)
    ensures SegmentsOf(c, r) ==
      [Segment(r.offset % c.chunk, r.length, 0, MirrorOf(c, r, Primary), MirrorOf(c, r, Backup))]
    ensures MirrorOf(c, r, Primary) < c.n && MirrorOf(c, r, Backup) < c.n
  {
    DivModUnique(r.offset % c.chunk + r.length + c.chunk - 1, c.chunk, 1,
                 r.offset % c.chunk + r.length - 1);
    assert |SegmentsOf(c, r)| == 1;
    SegmentTranslates(r.offset, r.length, c.chunk, c.n, 0);
  }

  /** What the ticket of `uid` recorded for a mirror is that mirror's own answer. */
  ghost predicate TicketKnown(c: Config, run: Run, now: nat, uid: nat, role: Role)
    requires ValidConfig(c) && |run.states| == |run.labels| + 1 && now < |run.states|
  {
    var s := run.states[now];
    uid in s.state && uid in s.tasks && |s.state[uid].segments| == 1 ==>
      var message := MessageFor(s.state[uid].segments[0], role);
      message.Some? ==> OwnAnswer(c, run, now, MirrorOf(c, s.tasks[uid].request, role), uid, message.value)
  }

  /** A ticket as `MinionManager` creates it. */
  ghost predicate IsNew(t: State)
  {
    exists op, total, segs :: t == Fresh(op, total, segs)
  }

  /** How a step changes a ticket: not at all, to a new one, or by the fired callback. */
  ghost predicate TicketChange(s: System, l: Label, uid: nat, t: State)
  {
    || (uid in s.state && t == s.state[uid])
    || (uid !in s.state && IsNew(t))
    || (uid in s.state && FiredBy(s, l).Some? && FiredBy(s, l).value.0.ticket == uid
        && var (call, answer) := FiredBy(s, l).value;
           t == Accept(s.state[uid], Response(call.segment, call.role, Some(answer))))
  }

  lemma TicketStep(c: Config, s: System, l: Label, uid: nat)
    requires ValidConfig(c) && Tasks(c, s) && Enabled(c, s, l) && uid in Apply(c, s, l).state
    ensures TicketChange(s, l, uid, Apply(c, s, l).state[uid])
  {
    match l
    case NewRequest(r) =>
    case Announce(u) =>
    case OpenTicket(u) => OpenedTicket(c, s, u);
    case Send(u, trailer) => SendTickets(c, s, u, trailer);
    case Serve(m, packet, good, noise) => ServeTickets(s, m, packet, good, noise);
    case Wakeup(m, packet, noise) =>
      var w := Wake(s.pending[m], Deliver(packet));
      if w.call.Some? {
        CallTicket(s.(pending := s.pending[m := w.pending]), w.call.value.0, w.call.value.1, noise);
      }
  }

  lemma OpenedTicket(c: Config, s: System, u: nat)
    requires ValidConfig(c) && Tasks(c, s) && u in s.tasks && s.tasks[u].phase == Queued
    ensures u !in s.state
    ensures var s', r := AfterOpenTicket(c, s, u), s.tasks[u].request;
      s'.state == s.state || s'.state == s.state[u := Fresh(r.op, r.length, SegmentsOf(c, r))]
  {
    assert TaskOk(c, s, u);
  }

  lemma SendTickets(c: Config, s: System, u: nat, trailer: Byte)
    requires ValidConfig(c) && CanSend(c, s, u)
    ensures AfterSend(c, s, u, trailer).state == s.state
  {
  }

  lemma ServeTickets(s: System, m: nat, packet: seq<Byte>, good: bool, noise: seq<Byte>)
    requires m < |s.stores|
    ensures AfterServe(s, m, packet, good, noise).state == s.state
  {
  }

  lemma CallTicket(s: System, call: Callback, answer: Answer, noise: seq<Byte>)
    ensures var s' := AfterCall(s, call, answer, noise);
      s'.state == if call.ticket in s.state then
                    s.state[call.ticket := Accept(s.state[call.ticket],
                                                  Response(call.segment, call.role, Some(answer)))]
                  else s.state
  {
  }

  lemma OwnAnswerStays(c: Config, run: Run, now: nat, m: nat, uid: nat, answer: Answer)
    requires ValidConfig(c) && IsRun(c, run) && now < |run.labels|
    requires OwnAnswer(c, run, now, m, uid, answer)
    ensures OwnAnswer(c, run, now + 1, m, uid, answer)
  {
    var o :| Genuine(c, run, now, m, o) && o.id.uid == uid && AnswerOf(o.answer) == Some(answer);
    GenuineStays(c, run, now, m, o);
  }
}
