/** What becomes of a callback: a proxy keeps one per UID, and a request whose sends use a
    minion twice replaces its own. */
module WideCallbacks {
  import opened Types
  import opened StripeSplitter
  import opened Codec
  import opened MasterProxies
  import opened RaidSystem
  import opened RaidInvariant
  import opened RaidOrigin
  import opened RaidSafety
  import opened RaidTickets
  import WideRequests

  // ----- Which sends of a request use the same minion --------------------------------------------

  /** The minion that send `k` of a request goes to. */
  function SendTarget(c: Config, r: Request, k: nat): nat
    requires ValidConfig(c)
  {
    WideRequests.Target(r.offset / c.chunk, c.n, k)
  }

  /** In range, the backup of a segment is the primary of the next. */
  lemma NextPrimaryIsBackup(c: Config, r: Request, i: nat)
    requires ValidConfig(c) && i + 1 < |SegmentsOf(c, r)| && r.offset + r.length <= c.n * c.chunk
    ensures SegmentsOf(c, r)[i + 1].primary == SegmentsOf(c, r)[i].backup
  {
    SegmentTranslates(r.offset, r.length, c.chunk, c.n, i);
    SegmentTranslates(r.offset, r.length, c.chunk, c.n, i + 1);
    NextMinion(SegmentsOf(c, r)[i].primary, c.n);
  }

  /** Two sends `k < j` collide as indices only if `j` is the primary right after the
      backup `k`, or goes round the whole drive back to the first primary. */
  lemma IndicesCollide(first: nat, n: nat, k: nat, j: nat)
    requires k < j && first + j / 2 < n
    ensures WideRequests.Target(first, n, k) == WideRequests.Target(first, n, j)
       <==> Collide(n, k, j)
  {
    NextMinion(first + k / 2, n);
    NextMinion(first + j / 2, n);
  }

  lemma TargetIs(c: Config, r: Request, uid: nat, k: nat)
    requires ValidConfig(c) && k < 2 * |SegmentsOf(c, r)|
    ensures TargetOf(c, r, NewCallback(uid, k)) == SendTarget(c, r, k)
  {
  }

  lemma LastIndex(c: Config, r: Request, j: nat)
    requires ValidConfig(c) && r.offset + r.length <= c.n * c.chunk && j < 2 * |SegmentsOf(c, r)|
    ensures r.offset / c.chunk + j / 2 < c.n
  {
    SegmentTranslates(r.offset, r.length, c.chunk, c.n, j / 2);
  }

  lemma FirstChunk(c: Config, r: Request, j: nat) returns (first: nat)
    requires ValidConfig(c) && r.offset + r.length <= c.n * c.chunk && j < 2 * |SegmentsOf(c, r)|
    ensures first == r.offset / c.chunk && first + j / 2 < c.n
  {
    LastIndex(c, r, j);
    first := r.offset / c.chunk;
  }

  /** Send `j` follows send `k` to the same minion: `k` is a backup and `j` the next primary,
      or `k` is the first of all and `j` goes round the whole drive. */
  predicate Collide(n: nat, k: nat, j: nat)
  {
    (k % 2 == 1 && j == k + 1) || (k == 0 && j == 2 * n - 1)
  }

  lemma TargetFrom(c: Config, r: Request, first: nat, k: nat)
    requires ValidConfig(c) && first == r.offset / c.chunk
    ensures SendTarget(c, r, k) == WideRequests.Target(first, c.n, k)
  {
  }

  lemma CollidingFrom(c: Config, r: Request, first: nat, k: nat, j: nat)
    requires ValidConfig(c) && first == r.offset / c.chunk && first + j / 2 < c.n && k < j
    ensures SendTarget(c, r, k) == SendTarget(c, r, j) <==> Collide(c.n, k, j)
  {
    TargetFrom(c, r, first, k);
    TargetFrom(c, r, first, j);
    IndicesCollide(first, c.n, k, j);
  }

  /** Sends `k < j` of an accepted request go to the same minion exactly if they collide:
      the backup of a segment and the next primary; the first primary and the last backup
      of a request that touches every chunk, and so, with one minion, its two sends. */
  lemma CollidingSends(c: Config, r: Request, k: nat, j: nat)
    requires ValidConfig(c) && r.offset + r.length <= c.n * c.chunk && k < j < 2 * |SegmentsOf(c, r)|
    ensures SendTarget(c, r, k) == SendTarget(c, r, j) <==> Collide(c.n, k, j)
  {
    var first := FirstChunk(c, r, j);
    CollidingFrom(c, r, first, k, j);
  }

  // ----- What one step does to a waiting callback --------------------------------------------------

  ghost predicate WaitsAt(s: System, m: nat, call: Callback)
  {
    m < |s.pending| && call.ticket in s.pending[m] && s.pending[m][call.ticket] == call
  }

  lemma WaitsOnlyThere(c: Config, s: System, m: nat, call: Callback)
    requires ValidConfig(c) && AllWaitAtTarget(c, s) && WaitsAt(s, m, call)
    ensures call.ticket in s.tasks && call.segment < |SegmentsOf(c, s.tasks[call.ticket].request)|
    ensures TargetOf(c, s.tasks[call.ticket].request, call) == m
  {
    assert WaitsAtTarget(c, s, m, call.ticket);
  }

  lemma WakeKeepsOthers(pending: map<nat, Callback>, message: Option<Message>, uid: nat)
    requires uid in pending
    requires Wake(pending, message).call.Some? ==> Wake(pending, message).call.value.0 != pending[uid]
    ensures uid in Wake(pending, message).pending && Wake(pending, message).pending[uid] == pending[uid]
  {
  }

  lemma OtherStepsKeepWaiting(c: Config, s: System, l: Label, m: nat, call: Callback)
    requires ValidConfig(c) && Enabled(c, s, l) && WaitsAt(s, m, call) && !l.Send?
    requires FiredBy(s, l).Some? ==> FiredBy(s, l).value.0 != call
    ensures WaitsAt(Apply(c, s, l), m, call)
  {
    OtherStepsForget(c, s, l);
    if l.Wakeup? && l.minion == m {
      WakeKeepsOthers(s.pending[m], Deliver(l.packet), call.ticket);
    }
  }

  lemma OtherSendsKeepWaiting(c: Config, s: System, uid: nat, trailer: Byte, m: nat, call: Callback)
    requires ValidConfig(c) && Shape(c, s) && Tasks(c, s) && CanSend(c, s, uid) && WaitsAt(s, m, call) && uid != call.ticket
    ensures WaitsAt(AfterSend(c, s, uid, trailer), m, call)
  {
    SendRegisters(c, s, uid, trailer);
  }

  /** A step that neither fires the callback nor sends for its request leaves it waiting. */
  lemma StillWaits(c: Config, s: System, l: Label, m: nat, call: Callback)
    requires ValidConfig(c) && Shape(c, s) && Tasks(c, s) && Enabled(c, s, l) && WaitsAt(s, m, call)
    requires !(l.Send? && l.uid == call.ticket)
    requires FiredBy(s, l).Some? ==> FiredBy(s, l).value.0 != call
    ensures WaitsAt(Apply(c, s, l), m, call)
  {
    if l.Send? {
      OtherSendsKeepWaiting(c, s, l.uid, l.trailer, m, call);
    } else {
      OtherStepsKeepWaiting(c, s, l, m, call);
    }
  }

  /** The state of the pending maps after the next send of request `uid`. */
  lemma SendReplaces(c: Config, s: System, uid: nat, trailer: Byte)
    requires ValidConfig(c) && Shape(c, s) && Tasks(c, s) && CanSend(c, s, uid)
    ensures var s', r, j := AfterSend(c, s, uid, trailer), s.tasks[uid].request, s.tasks[uid].phase.sent;
      && j < 2 * |SegmentsOf(c, r)| && SendTarget(c, r, j) < |s.pending|
      && |s'.pending| == |s.pending|
      && (forall m | 0 <= m < |s.pending| ::
            s'.pending[m] == if m == SendTarget(c, r, j) then s.pending[m][uid := NewCallback(uid, j)]
                             else s.pending[m])
      && s'.tasks == s.tasks[uid := Task(r, Sending(j + 1))]
  {
    SendRegisters(c, s, uid, trailer);
    TargetIs(c, s.tasks[uid].request, uid, s.tasks[uid].phase.sent);
  }

  /** Send `j` replaces the callback of an earlier send `k` exactly if they collide. */
  lemma SendOvertakes(c: Config, s: System, uid: nat, trailer: Byte, k: nat)
    requires ValidConfig(c) && Shape(c, s) && Tasks(c, s) && AllWaitAtTarget(c, s) && CanSend(c, s, uid)
    requires k < s.tasks[uid].phase.sent
    ensures k < 2 * |SegmentsOf(c, s.tasks[uid].request)|
    ensures var r, j := s.tasks[uid].request, s.tasks[uid].phase.sent;
      Spent(AfterSend(c, s, uid, trailer), NewCallback(uid, k))
      <==> Spent(s, NewCallback(uid, k)) || SendTarget(c, r, k) == SendTarget(c, r, j)
  {
    var s', r, j := AfterSend(c, s, uid, trailer), s.tasks[uid].request, s.tasks[uid].phase.sent;
    var call := NewCallback(uid, k);
    assert call != NewCallback(uid, j);
    SendReplaces(c, s, uid, trailer);
    forall m: nat
      ensures WaitsAt(s', m, call) <==> WaitsAt(s, m, call) && m != SendTarget(c, r, j)
      ensures WaitsAt(s, m, call) ==> m == SendTarget(c, r, k)
    {
      if WaitsAt(s, m, call) {
        WaitsOnlyThere(c, s, m, call);
        TargetIs(c, r, uid, k);
      }
    }
    SpentIsWaitingNowhere(s, call);
    SpentIsWaitingNowhere(s', call);
  }

  lemma SpentIsWaitingNowhere(s: System, call: Callback)
    requires call.ticket in s.tasks && s.tasks[call.ticket].phase.Sending?
    requires SendOf(call) < s.tasks[call.ticket].phase.sent
    ensures Spent(s, call) <==> forall m: nat :: !WaitsAt(s, m, call)
  {
    if forall m: nat :: !WaitsAt(s, m, call) {
      forall m | 0 <= m < |s.pending| && call.ticket in s.pending[m]
        ensures s.pending[m][call.ticket] != call
      {
        assert !WaitsAt(s, m, call);
      }
    }
  }

  // ----- What becomes of a callback in a run -------------------------------------------------------

  /** A later send of the same request has gone to the minion of send `k`. */
  ghost predicate Overtaken(c: Config, s: System, uid: nat, k: nat)
    requires ValidConfig(c)
  {
    && uid in s.tasks && s.tasks[uid].phase.Sending?
    && exists j :: Overtakes(c, s.tasks[uid], k, j)
  }

  ghost predicate Overtakes(c: Config, task: Task, k: nat, j: nat)
    requires ValidConfig(c)
  {
    && task.phase.Sending? && k < j < task.phase.sent && j < 2 * |SegmentsOf(c, task.request)|
    && SendTarget(c, task.request, k) == SendTarget(c, task.request, j)
  }

  ghost predicate Sent(s: System, uid: nat, k: nat)
  {
    uid in s.tasks && s.tasks[uid].phase.Sending? && k < s.tasks[uid].phase.sent
  }

  /** The callback of a send made so far waits nowhere exactly if it has fired or a later
      send of the request went to the same minion. */
  ghost predicate Fate(c: Config, run: Run, now: nat, uid: nat, k: nat)
    requires ValidConfig(c) && |run.states| == |run.labels| + 1 && now < |run.states|
  {
    Sent(run.states[now], uid, k) ==>
      (Spent(run.states[now], NewCallback(uid, k))
       <==> FiredBefore(run, now, NewCallback(uid, k)) || Overtaken(c, run.states[now], uid, k))
  }

  lemma FiredBeforeNext(run: Run, now: nat, call: Callback)
    requires |run.states| == |run.labels| + 1 && now < |run.labels|
    ensures FiredBefore(run, now + 1, call) <==> FiredBefore(run, now, call) || FiredAt(run, now, call)
  {
    if FiredBefore(run, now + 1, call) {
      var t: nat :| t < now + 1 && FiredAt(run, t, call);
    }
  }

  lemma OpenTicketKeepsOthers(c: Config, s: System, u: nat, uid: nat)
    requires ValidConfig(c) && u in s.tasks && uid in s.tasks
    ensures var after := AfterOpenTicket(c, s, u).tasks;
      after.Keys == s.tasks.Keys && (after[uid] == s.tasks[uid] || !after[uid].phase.Sending? || after[uid].phase.sent == 0)
  {
  }

  /** A step that does not send for the request leaves its task as it was, unless it only
      starts to send. */
  lemma OtherStepsKeepSent(c: Config, s: System, l: Label, uid: nat)
    requires ValidConfig(c) && Shape(c, s) && Tasks(c, s) && Enabled(c, s, l) && !(l.Send? && l.uid == uid)
    requires uid in Apply(c, s, l).tasks && Apply(c, s, l).tasks[uid].phase.Sending?
    requires Apply(c, s, l).tasks[uid].phase.sent > 0
    ensures uid in s.tasks && s.tasks[uid] == Apply(c, s, l).tasks[uid]
  {
    match l
    case NewRequest(r) =>
    case Announce(u) =>
    case OpenTicket(u) => OpenTicketKeepsOthers(c, s, u, uid);
    case Send(u, trailer) => SendReplaces(c, s, u, trailer);
    case Serve(m, packet, good, noise) => ServeTasks(s, m, packet, good, noise);
    case Wakeup(m, packet, noise) => WakeupTasks(s, m, packet, noise);
  }

  lemma ServeTasks(s: System, m: nat, packet: seq<Byte>, good: bool, noise: seq<Byte>)
    requires m < |s.stores|
    ensures AfterServe(s, m, packet, good, noise).tasks == s.tasks
  {
  }

  lemma WakeupTasks(s: System, m: nat, packet: seq<Byte>, noise: seq<Byte>)
    requires m < |s.pending|
    ensures AfterWakeup(s, m, packet, noise).tasks == s.tasks
  {
  }

  lemma WaitingHasNotFired(c: Config, run: Run, now: nat, call: Callback)
    requires ValidConfig(c) && IsRun(c, run) && now < |run.states| && !Spent(run.states[now], call)
    ensures !FiredBefore(run, now, call)
  {
    if FiredBefore(run, now, call) {
      var t: nat :| t < now && FiredAt(run, t, call);
      SpentFrom(c, run, t, now);
    }
  }

  lemma JustRegistered(c: Config, s: System, uid: nat, trailer: Byte)
    requires ValidConfig(c) && Shape(c, s) && Tasks(c, s) && CanSend(c, s, uid)
    ensures var s', k := AfterSend(c, s, uid, trailer), s.tasks[uid].phase.sent;
      && !Spent(s', NewCallback(uid, k)) && !Overtaken(c, s', uid, k)
      && uid in s'.tasks && s'.tasks[uid].phase == Sending(k + 1)
  {
    SendReplaces(c, s, uid, trailer);
    assert WaitsAt(AfterSend(c, s, uid, trailer), SendTarget(c, s.tasks[uid].request, s.tasks[uid].phase.sent),
                   NewCallback(uid, s.tasks[uid].phase.sent));
  }

  lemma FirstSentBy(c: Config, run: Run, now: nat, uid: nat, k: nat)
    requires ValidConfig(c) && IsRun(c, run) && now < |run.labels|
    requires Sent(run.states[now + 1], uid, k) && !Sent(run.states[now], uid, k)
    ensures Inv(c, run.states[now]) && run.labels[now].Send? && run.labels[now].uid == uid
    ensures CanSend(c, run.states[now], uid) && run.states[now].tasks[uid].phase.sent == k
    ensures run.states[now + 1] == AfterSend(c, run.states[now], uid, run.labels[now].trailer)
  {
    var s, l := run.states[now], run.labels[now];
    RunKeeps(c, run, now);
    StepOfRun(c, run, now);
    if !(l.Send? && l.uid == uid) {
      OtherStepsKeepSent(c, s, l, uid);
    } else {
      SendReplaces(c, s, uid, l.trailer);
    }
  }

  lemma FirstSentWaits(c: Config, run: Run, now: nat, uid: nat, k: nat)
    requires ValidConfig(c) && IsRun(c, run) && now < |run.labels|
    requires Sent(run.states[now + 1], uid, k) && !Sent(run.states[now], uid, k)
    ensures !Spent(run.states[now + 1], NewCallback(uid, k)) && !Overtaken(c, run.states[now + 1], uid, k)
  {
    FirstSentBy(c, run, now, uid, k);
    JustRegistered(c, run.states[now], uid, run.labels[now].trailer);
  }

  /** The first state in which send `k` has been made. */
  lemma JustSent(c: Config, run: Run, now: nat, uid: nat, k: nat)
    requires ValidConfig(c) && IsRun(c, run) && now < |run.labels|
    requires Sent(run.states[now + 1], uid, k) && !Sent(run.states[now], uid, k)
    ensures Fate(c, run, now + 1, uid, k)
  {
    FirstSentWaits(c, run, now, uid, k);
    WaitingHasNotFired(c, run, now + 1, NewCallback(uid, k));
  }

  lemma OwnSendAt(c: Config, run: Run, now: nat, uid: nat)
    requires ValidConfig(c) && IsRun(c, run) && now < |run.labels|
    requires run.labels[now].Send? && run.labels[now].uid == uid
    ensures Inv(c, run.states[now]) && AllWaitAtTarget(c, run.states[now]) && CanSend(c, run.states[now], uid)
    ensures run.states[now + 1] == AfterSend(c, run.states[now], uid, run.labels[now].trailer)
    ensures forall call :: !FiredAt(run, now, call)
  {
    RunKeeps(c, run, now);
    CallbacksWaitAtTarget(c, run, now);
    StepOfRun(c, run, now);
  }

  /** The next send of the request itself. */
  lemma OwnSendFate(c: Config, run: Run, now: nat, uid: nat, k: nat)
    requires ValidConfig(c) && IsRun(c, run) && now < |run.labels|
    requires Sent(run.states[now], uid, k) && Fate(c, run, now, uid, k)
    requires run.labels[now].Send? && run.labels[now].uid == uid
    ensures Fate(c, run, now + 1, uid, k)
  {
    var s, trailer := run.states[now], run.labels[now].trailer;
    OwnSendAt(c, run, now, uid);
    SendReplaces(c, s, uid, trailer);
    SendOvertakes(c, s, uid, trailer, k);
    FiredBeforeNext(run, now, NewCallback(uid, k));
    OvertakenNext(c, s, AfterSend(c, s, uid, trailer), uid, k);
  }

  lemma OvertakenNext(c: Config, s: System, s': System, uid: nat, k: nat)
    requires ValidConfig(c) && Sent(s, uid, k) && uid in s'.tasks
    requires s.tasks[uid].phase.sent < 2 * |SegmentsOf(c, s.tasks[uid].request)|
    requires s'.tasks[uid] == s.tasks[uid].(phase := Sending(s.tasks[uid].phase.sent + 1))
    ensures Overtaken(c, s', uid, k) <==>
      Overtaken(c, s, uid, k)
      || SendTarget(c, s.tasks[uid].request, k) == SendTarget(c, s.tasks[uid].request, s.tasks[uid].phase.sent)
  {
    var task, task' := s.tasks[uid], s'.tasks[uid];
    var last: nat := task.phase.sent;
    forall j: nat
      ensures Overtakes(c, task', k, j) <==>
        Overtakes(c, task, k, j)
        || (j == last && SendTarget(c, task.request, k) == SendTarget(c, task.request, last))
    {
    }
    if SendTarget(c, task.request, k) == SendTarget(c, task.request, last) {
      assert Overtakes(c, task', k, last);
    }
    if Overtaken(c, s, uid, k) {
      var j: nat :| Overtakes(c, task, k, j);
      assert Overtakes(c, task', k, j);
    }
  }

  /** Any other step. */
  lemma OtherStepFate(c: Config, run: Run, now: nat, uid: nat, k: nat)
    requires ValidConfig(c) && IsRun(c, run) && now < |run.labels|
    requires Sent(run.states[now], uid, k) && Fate(c, run, now, uid, k)
    requires Sent(run.states[now + 1], uid, k)
    requires !(run.labels[now].Send? && run.labels[now].uid == uid)
    ensures Fate(c, run, now + 1, uid, k)
  {
    var s, l, call := run.states[now], run.labels[now], NewCallback(uid, k);
    RunKeeps(c, run, now);
    StepOfRun(c, run, now);
    OtherStepsKeepSent(c, s, l, uid);
    FiredBeforeNext(run, now, call);
    if Spent(s, call) {
      SpentStaysAt(c, run, now, call);
    } else {
      var m: nat :| m < |s.pending| && uid in s.pending[m] && s.pending[m][uid] == call;
      if FiredAt(run, now, call) {
        FiringSpendsAt(c, run, now);
      } else {
        StillWaits(c, s, l, m, call);
      }
    }
  }

  /** In every state of every run, the callback of a send waits nowhere exactly if it has
      fired or a later send of the same request went to the same minion: it is lost exactly
      if that happened before it fired. */
  lemma {:induction false} CallbackFate(c: Config, run: Run, now: nat, uid: nat, k: nat)
    requires ValidConfig(c) && IsRun(c, run) && now < |run.states|
    ensures Fate(c, run, now, uid, k)
  {
    if now > 0 && Sent(run.states[now], uid, k) {
      CallbackFate(c, run, now - 1, uid, k);
      if !Sent(run.states[now - 1], uid, k) {
        JustSent(c, run, now - 1, uid, k);
      } else if run.labels[now - 1].Send? && run.labels[now - 1].uid == uid {
        OwnSendFate(c, run, now - 1, uid, k);
      } else {
        OtherStepFate(c, run, now - 1, uid, k);
      }
    }
  }

  /** A callback fires only before a later send of its request goes to the same minion. */
  lemma FiresInTime(c: Config, run: Run, t: nat, uid: nat, k: nat)
    requires ValidConfig(c) && IsRun(c, run) && FiredAt(run, t, NewCallback(uid, k))
    ensures Sent(run.states[t], uid, k) && !Overtaken(c, run.states[t], uid, k)
  {
    FiringSpendsAt(c, run, t);
    CallbackGetsOwnAnswer(c, run, t);
    CallbackFate(c, run, t, uid, k);
  }

  // ----- Requests that can no longer be answered ---------------------------------------------------

  lemma {:induction false} SpentForGood(c: Config, run: Run, u: nat, now: nat, call: Callback)
    requires ValidConfig(c) && IsRun(c, run) && u <= now < |run.states| && Spent(run.states[u], call)
    ensures Spent(run.states[now], call)
  {
    if now > u {
      SpentForGood(c, run, u, now - 1, call);
      SpentStaysAt(c, run, now - 1, call);
    }
  }

  /** The callback waits nowhere and has not fired. */
  ghost predicate Lost(run: Run, now: nat, uid: nat, k: nat)
    requires |run.states| == |run.labels| + 1 && now < |run.states|
  {
    Spent(run.states[now], NewCallback(uid, k)) && !FiredBefore(run, now, NewCallback(uid, k))
  }

  /** A lost callback never fires. */
  lemma LostForGood(c: Config, run: Run, now: nat, later: nat, uid: nat, k: nat)
    requires ValidConfig(c) && IsRun(c, run) && now <= later < |run.states| && Lost(run, now, uid, k)
    ensures Lost(run, later, uid, k)
  {
    SpentForGood(c, run, now, later, NewCallback(uid, k));
    if FiredBefore(run, later, NewCallback(uid, k)) {
      var t: nat :| t < later && FiredAt(run, t, NewCallback(uid, k));
      SpentForGood(c, run, now, t, NewCallback(uid, k));
      FiringSpendsAt(c, run, t);
    }
  }

  /** A write of which a callback is lost is never answered. */
  lemma LostWriteIsNeverAnswered(c: Config, run: Run, now: nat, later: nat, uid: nat, k: nat)
    requires ValidConfig(c) && IsRun(c, run) && now <= later < |run.states| && Lost(run, now, uid, k)
    requires uid in run.states[later].tasks && run.states[later].tasks[uid].request.op == Write
    requires k < 2 * |SegmentsOf(c, run.states[later].tasks[uid].request)|
    ensures !Replied(run.states[later], uid)
  {
    LostForGood(c, run, now, later, uid, k);
    WriteAnsweredExactly(c, run, later, uid);
    assert !FiredBefore(run, later, Callback(uid, k / 2, NewCallback(uid, k).role));
  }

  /** Step `u` makes send `j` of request `uid`. */
  ghost predicate SendsAt(run: Run, u: nat, uid: nat, j: nat)
    requires |run.states| == |run.labels| + 1
  {
    && u < |run.labels| && run.labels[u].Send? && run.labels[u].uid == uid
    && uid in run.states[u].tasks && run.states[u].tasks[uid].phase == Sending(j)
  }

  lemma {:induction false} SentGrows(c: Config, run: Run, u: nat, t: nat, uid: nat, k: nat)
    requires ValidConfig(c) && IsRun(c, run) && u <= t < |run.states| && Sent(run.states[u], uid, k)
    ensures Sent(run.states[t], uid, k)
    ensures run.states[t].tasks[uid].request == run.states[u].tasks[uid].request
  {
    if u < t {
      SentGrows(c, run, u, t - 1, uid, k);
      RunFollows(c, run, t - 1);
    }
  }

  lemma SentAfter(c: Config, run: Run, u: nat, uid: nat, j: nat)
    requires ValidConfig(c) && IsRun(c, run) && SendsAt(run, u, uid, j)
    ensures Sent(run.states[u + 1], uid, j)
    ensures run.states[u + 1].tasks[uid].request == run.states[u].tasks[uid].request
    ensures j < 2 * |SegmentsOf(c, run.states[u].tasks[uid].request)|
  {
    RunKeeps(c, run, u);
    StepOfRun(c, run, u);
    SendReplaces(c, run.states[u], uid, run.labels[u].trailer);
  }

  /** A callback that fires does so before any colliding send of its request. */
  lemma FiresBeforeCollision(c: Config, run: Run, t: nat, u: nat, uid: nat, k: nat, j: nat)
    requires ValidConfig(c) && IsRun(c, run) && FiredAt(run, t, NewCallback(uid, k)) && SendsAt(run, u, uid, j)
    requires k < j < 2 * |SegmentsOf(c, run.states[u].tasks[uid].request)|
    requires SendTarget(c, run.states[u].tasks[uid].request, k) == SendTarget(c, run.states[u].tasks[uid].request, j)
    ensures t < u
  {
    FiresInTime(c, run, t, uid, k);
    if t > u {
      SentAfter(c, run, u, uid, j);
      SentGrows(c, run, u + 1, t, uid, j);
      assert Overtakes(c, run.states[t].tasks[uid], k, j);
    }
  }

  /** A write is answered at all, with or without error, only if for every two of its sends
      that go to the same minion the answer to the first came back before the second was
      made. */
  lemma WideWriteNeedsEarlyAnswers(c: Config, run: Run, now: nat, u: nat, uid: nat, k: nat, j: nat)
    requires ValidConfig(c) && IsRun(c, run) && now < |run.states| && uid in run.states[now].tasks
    requires run.states[now].tasks[uid].request.op == Write && Replied(run.states[now], uid)
    requires k < j < 2 * |SegmentsOf(c, run.states[now].tasks[uid].request)| && SendsAt(run, u, uid, j)
    requires SendTarget(c, run.states[now].tasks[uid].request, k)
          == SendTarget(c, run.states[now].tasks[uid].request, j)
    ensures exists t: nat :: t < u && FiredAt(run, t, NewCallback(uid, k))
  {
    WriteAnsweredExactly(c, run, now, uid);
    assert FiredBefore(run, now, Callback(uid, k / 2, NewCallback(uid, k).role));
    var t: nat :| t < now && FiredAt(run, t, NewCallback(uid, k));
    SameRequest(c, run, u, now, uid);
    FiresBeforeCollision(c, run, t, u, uid, k, j);
  }

  lemma {:induction false} RequestStays(c: Config, run: Run, u: nat, t: nat, uid: nat)
    requires ValidConfig(c) && IsRun(c, run) && u <= t < |run.states| && uid in run.states[u].tasks
    ensures uid in run.states[t].tasks
    ensures run.states[t].tasks[uid].request == run.states[u].tasks[uid].request
  {
    if u < t {
      RequestStays(c, run, u, t - 1, uid);
      RunRequests(c, run, t - 1);
    }
  }

  lemma SameRequest(c: Config, run: Run, u: nat, t: nat, uid: nat)
    requires ValidConfig(c) && IsRun(c, run) && u < |run.states| && t < |run.states|
    requires uid in run.states[u].tasks && uid in run.states[t].tasks
    ensures run.states[t].tasks[uid].request == run.states[u].tasks[uid].request
  {
    if u <= t {
      RequestStays(c, run, u, t, uid);
    } else {
      RequestStays(c, run, t, u, uid);
    }
  }
}
