/** How runs go on: any send made can be served and answered, and so exactly which requests
    can still be answered once all their messages are out. */
module RaidProgress {
  import opened Types
  import opened Codec
  import opened MirrorTicket
  import opened Minion
  import opened MinionManager
  import opened MasterProxies
  import opened RaidSystem
  import opened RaidInvariant
  import opened RaidOrigin
  import opened RaidSafety
  import opened RaidTickets
  import opened WideCallbacks
  import opened RaidStores

  // ----- Longer runs -------------------------------------------------------------------------------

  ghost predicate Extends(c: Config, run: Run, longer: Run)
    requires ValidConfig(c)
  {
    IsRun(c, longer) && run.states <= longer.states && run.labels <= longer.labels
  }

  function Last(run: Run): System
    requires |run.states| == |run.labels| + 1
  {
    run.states[|run.labels|]
  }

  lemma OneMore(c: Config, run: Run, l: Label) returns (longer: Run)
    requires ValidConfig(c) && IsRun(c, run) && Enabled(c, Last(run), l)
    ensures Extends(c, run, longer) && longer.labels == run.labels + [l]
    ensures Last(longer) == Apply(c, Last(run), l)
  {
    longer := Run(run.states + [Apply(c, Last(run), l)], run.labels + [l]);
    forall t | 0 <= t < |longer.labels|
      ensures StepAt(c, longer, t)
    {
      assert t < |run.labels| ==> StepAt(c, run, t);
    }
  }

  lemma PrefixOfRun(c: Config, run: Run, longer: Run)
    requires ValidConfig(c) && |run.states| == |run.labels| + 1 && Extends(c, run, longer)
    ensures |longer.states| == |longer.labels| + 1 && |run.labels| <= |longer.labels|
    ensures forall t | 0 <= t < |run.states| :: longer.states[t] == run.states[t]
    ensures forall t | 0 <= t < |run.labels| :: longer.labels[t] == run.labels[t]
  {
  }

  lemma FiredInBoth(c: Config, run: Run, longer: Run, now: nat, call: Callback)
    requires ValidConfig(c) && |run.states| == |run.labels| + 1 && Extends(c, run, longer) && now <= |run.labels|
    ensures FiredBefore(longer, now, call) <==> FiredBefore(run, now, call)
  {
    PrefixOfRun(c, run, longer);
    forall t: nat | t < now
      ensures FiredAt(longer, t, call) <==> FiredAt(run, t, call)
    {
    }
  }

  lemma FiredLater(run: Run, now: nat, later: nat, call: Callback)
    requires |run.states| == |run.labels| + 1 && now <= later && FiredBefore(run, now, call)
    ensures FiredBefore(run, later, call)
  {
    var t: nat :| t < now && FiredAt(run, t, call);
    assert t < later && FiredAt(run, t, call);
  }

  lemma {:induction false} HeardInBoth(c: Config, run: Run, longer: Run, now: nat, uid: nat)
    requires ValidConfig(c) && |run.states| == |run.labels| + 1 && Extends(c, run, longer) && now <= |run.labels|
    ensures now <= |longer.labels| && |longer.states| == |longer.labels| + 1
    ensures Heard(longer, now, uid) == Heard(run, now, uid)
  {
    PrefixOfRun(c, run, longer);
    if now > 0 {
      HeardInBoth(c, run, longer, now - 1, uid);
    }
  }

  // ----- Every send made can be served -------------------------------------------------------------

  /** The datagram of send `k` of request `uid` is in the network. */
  ghost predicate InNetwork(c: Config, s: System, m: nat, packet: seq<Byte>, id: SendId)
    requires ValidConfig(c)
  {
    (m, packet) in s.toMinion && IsSend(c, s, m, packet, id)
  }

  lemma SendEntersNetwork(c: Config, s: System, uid: nat, trailer: Byte, out: Outgoing)
    requires ValidConfig(c) && CanSend(c, s, uid)
    requires out == OutgoingOf(c, s.tasks[uid].request, uid, s.tasks[uid].phase.sent, trailer)
    requires out.minion < |s.pending|
    ensures (out.minion, Encode(out.message)) in AfterSend(c, s, uid, trailer).toMinion
  {
  }

  lemma NewIsSend(c: Config, s: System, uid: nat, trailer: Byte, out: Outgoing)
    requires ValidConfig(c) && Tasks(c, s) && CanSend(c, s, uid)
    requires out == OutgoingOf(c, s.tasks[uid].request, uid, s.tasks[uid].phase.sent, trailer)
    requires AfterSend(c, s, uid, trailer).tasks
          == s.tasks[uid := s.tasks[uid].(phase := Sending(s.tasks[uid].phase.sent + 1))]
    ensures IsSend(c, AfterSend(c, s, uid, trailer), out.minion, Encode(out.message),
                   SendId(uid, s.tasks[uid].phase.sent, trailer))
  {
    assert TaskOk(c, s, uid);
  }

  lemma NewlyInNetwork(c: Config, s: System, uid: nat, trailer: Byte) returns (m: nat, packet: seq<Byte>, id: SendId)
    requires ValidConfig(c) && Shape(c, s) && Tasks(c, s) && CanSend(c, s, uid)
    ensures InNetwork(c, AfterSend(c, s, uid, trailer), m, packet, id)
    ensures id == SendId(uid, s.tasks[uid].phase.sent, trailer)
  {
    assert TaskOk(c, s, uid);
    var r, k := s.tasks[uid].request, s.tasks[uid].phase.sent;
    var out := OutgoingOf(c, r, uid, k, trailer);
    SendInRange(c, r, uid, k, trailer);
    SendCounts(c, s, uid, trailer);
    SendEntersNetwork(c, s, uid, trailer, out);
    NewIsSend(c, s, uid, trailer, out);
    m, packet, id := out.minion, Encode(out.message), SendId(uid, k, trailer);
  }

  lemma NetworkGrows(c: Config, run: Run, t: nat)
    requires ValidConfig(c) && IsRun(c, run) && t < |run.labels|
    ensures run.states[t].toMinion <= run.states[t + 1].toMinion
    ensures run.states[t].toMaster <= run.states[t + 1].toMaster
  {
    RunFollows(c, run, t);
    StepOfRun(c, run, t);
  }

  lemma NetworkKeeps(c: Config, run: Run, t: nat, m: nat, packet: seq<Byte>, id: SendId)
    requires ValidConfig(c) && IsRun(c, run) && t < |run.labels| && InNetwork(c, run.states[t], m, packet, id)
    ensures InNetwork(c, run.states[t + 1], m, packet, id)
  {
    NetworkGrows(c, run, t);
    RunFollows(c, run, t);
    RunKeeps(c, run, t + 1);
    SendStays(c, run.states[t], run.states[t + 1], m, id);
  }

  lemma {:induction false} SentIsInNetwork(c: Config, run: Run, now: nat, uid: nat, k: nat)
    returns (m: nat, packet: seq<Byte>, id: SendId)
    requires ValidConfig(c) && IsRun(c, run) && now < |run.states| && Sent(run.states[now], uid, k)
    ensures InNetwork(c, run.states[now], m, packet, id) && id.uid == uid && id.k == k
  {
    if now > 0 && Sent(run.states[now - 1], uid, k) {
      m, packet, id := SentIsInNetwork(c, run, now - 1, uid, k);
      NetworkKeeps(c, run, now - 1, m, packet, id);
    } else {
      FirstSentBy(c, run, now - 1, uid, k);
      m, packet, id := NewlyInNetwork(c, run.states[now - 1], uid, run.labels[now - 1].trailer);
    }
  }

  /** The largest slice that arrives. */
  const DELIVERABLE: nat := 8158

  /** No slice of the request is too large to arrive. */
  predicate SmallSlices(c: Config, r: Request)
    requires ValidConfig(c)
  {
    forall i | 0 <= i < |SegmentsOf(c, r)| :: SegmentsOf(c, r)[i].length <= DELIVERABLE
  }

  predicate Deliverable(c: Config, s: System, uid: nat)
    requires ValidConfig(c)
  {
    uid in s.tasks && SmallSlices(c, s.tasks[uid].request)
  }

  /** A minion that handles the datagram of a send answers OK exactly if its file operation
      does not fail, and the answer arrives. */
  lemma ServedSend(c: Config, s: System, m: nat, packet: seq<Byte>, id: SendId, good: bool) returns (answer: Message)
    requires ValidConfig(c) && Shape(c, s) && IsSend(c, s, m, packet, id) && Deliverable(c, s, id.uid)
    ensures m < |s.stores| && Deliver(packet) == Some(MessageOf(c, s, m, id))
    ensures AnswerTo(s.stores[m], MessageOf(c, s, m, id), good, []) == Some(answer)
    ensures answer.uid == id.uid && Deliver(Encode(answer)) == Some(answer)
    ensures AnswerOf(answer).Some? && AnswerOf(answer).value.ok == good
  {
    var message, r := MessageOf(c, s, m, id), s.tasks[id.uid].request;
    SendFitsWire(c, s, m, id);
    SendInRange(c, r, id.uid, id.k, id.trailer);
    DeliveredIffFits(message);
    answer := AnswerTo(s.stores[m], message, good, []).value;
    DeliveredIffFits(answer);
  }

  lemma ServeAdds(s: System, m: nat, packet: seq<Byte>, message: Message, good: bool, answer: Message)
    requires m < |s.stores| && Deliver(packet) == Some(message)
    requires AnswerTo(s.stores[m], message, good, []) == Some(answer)
    ensures var s' := AfterServe(s, m, packet, good, []);
      && s'.tasks == s.tasks && s'.state == s.state && s'.pending == s.pending && s'.nextUid == s.nextUid
      && s'.stores == s.stores[m := CellsAfter(s.stores[m], message, good, [])]
      && (m, Encode(answer)) in s'.toMaster
  {
  }

  /** One more step, in which minion `m` serves the send `id`. */
  lemma ServeSend(c: Config, run: Run, m: nat, packet: seq<Byte>, id: SendId, good: bool)
    returns (longer: Run, answer: Message)
    requires ValidConfig(c) && IsRun(c, run) && InNetwork(c, Last(run), m, packet, id)
    requires Deliverable(c, Last(run), id.uid)
    ensures Extends(c, run, longer) && longer.labels == run.labels + [Serve(m, packet, good, [])]
    ensures Last(longer).tasks == Last(run).tasks && Last(longer).pending == Last(run).pending
    ensures Last(longer).nextUid == Last(run).nextUid && (m, Encode(answer)) in Last(longer).toMaster
    ensures m < |Last(run).stores|
    ensures Last(longer).stores
         == Last(run).stores[m := CellsAfter(Last(run).stores[m], MessageOf(c, Last(run), m, id), good, [])]
    ensures AnswerTo(Last(run).stores[m], MessageOf(c, Last(run), m, id), good, []) == Some(answer)
    ensures answer.uid == id.uid && Deliver(Encode(answer)) == Some(answer)
    ensures AnswerOf(answer).Some? && AnswerOf(answer).value.ok == good
  {
    RunKeeps(c, run, |run.labels|);
    answer := ServedSend(c, Last(run), m, packet, id, good);
    longer := OneMore(c, run, Serve(m, packet, good, []));
    ServeAdds(Last(run), m, packet, MessageOf(c, Last(run), m, id), good, answer);
  }

  lemma WakeupFires(s: System, m: nat, answer: Message, call: Callback)
    requires WaitsAt(s, m, call) && answer.uid == call.ticket
    requires Deliver(Encode(answer)) == Some(answer) && AnswerOf(answer).Some?
    ensures FiredBy(s, Label.Wakeup(m, Encode(answer), [])) == Some((call, AnswerOf(answer).value))
  {
  }

  /** One more step, in which the master receives an answer that a callback waits for. */
  lemma MasterReceives(c: Config, run: Run, m: nat, answer: Message, call: Callback) returns (longer: Run)
    requires ValidConfig(c) && IsRun(c, run) && WaitsAt(Last(run), m, call) && answer.uid == call.ticket
    requires (m, Encode(answer)) in Last(run).toMaster
    requires Deliver(Encode(answer)) == Some(answer) && AnswerOf(answer).Some?
    ensures Extends(c, run, longer) && longer.labels == run.labels + [Label.Wakeup(m, Encode(answer), [])]
    ensures Last(longer).tasks == Last(run).tasks && Last(longer).stores == Last(run).stores
    ensures FiredBy(Last(run), Label.Wakeup(m, Encode(answer), [])) == Some((call, AnswerOf(answer).value))
  {
    longer := OneMore(c, run, Label.Wakeup(m, Encode(answer), []));
    WakeupFires(Last(run), m, answer, call);
    WakeupTasks(Last(run), m, Encode(answer), []);
    WakeupStores(Last(run), m, Encode(answer), []);
  }

  /** Two steps: the minion of send `e` serves it, and the callback of the request that waits
      there, whichever it is, gets the answer. */
  lemma AnswerReaches(c: Config, run: Run, uid: nat, e: nat, m: nat, call: Callback, good: bool)
    returns (longer: Run, id: SendId, answer: Message)
    requires ValidConfig(c) && IsRun(c, run) && Deliverable(c, Last(run), uid) && Sent(Last(run), uid, e)
    requires m == SendTarget(c, Last(run).tasks[uid].request, e)
    requires call.ticket == uid && WaitsAt(Last(run), m, call)
    ensures Extends(c, run, longer) && |longer.labels| == |run.labels| + 2
    ensures Last(longer).tasks == Last(run).tasks
    ensures FiredBy(longer.states[|run.labels|], longer.labels[|run.labels|]) == None
    ensures FiredBy(longer.states[|run.labels| + 1], longer.labels[|run.labels| + 1])
         == if AnswerOf(answer).Some? then Some((call, AnswerOf(answer).value)) else None
    ensures AnswerOf(answer).Some? && AnswerOf(answer).value.ok == good
    ensures id.uid == uid && id.k == e && ValidSend(c, Last(run), m, id) && m < |Last(run).stores|
    ensures AnswerTo(Last(run).stores[m], MessageOf(c, Last(run), m, id), good, []) == Some(answer)
    ensures Last(longer).stores
         == Last(run).stores[m := CellsAfter(Last(run).stores[m], MessageOf(c, Last(run), m, id), good, [])]
  {
    var m', packet, id' := SentIsInNetwork(c, run, |run.labels|, uid, e);
    id := id';
    SendGoesToTarget(c, Last(run).tasks[uid].request, uid, e, id.trailer);
    TargetIs(c, Last(run).tasks[uid].request, uid, e);
    assert m == m';
    var served;
    served, answer := ServeSend(c, run, m, packet, id, good);
    longer := MasterReceives(c, served, m, answer, call);
    assert longer.states[|run.labels| + 1] == Last(served);
  }

  /** The two steps after which a waiting callback has fired with an OK answer: its minion
      serves the message it waits for, and the master receives the answer. */
  lemma AnswerArrivesFor(c: Config, run: Run, uid: nat, k: nat, m: nat) returns (longer: Run)
    requires ValidConfig(c) && IsRun(c, run) && Deliverable(c, Last(run), uid)
    requires Sent(Last(run), uid, k) && WaitsAt(Last(run), m, NewCallback(uid, k))
    ensures Extends(c, run, longer) && |longer.labels| == |run.labels| + 2
    ensures Last(longer).tasks == Last(run).tasks
    ensures FiredBy(longer.states[|run.labels|], longer.labels[|run.labels|]) == None
    ensures var fired := FiredBy(longer.states[|run.labels| + 1], longer.labels[|run.labels| + 1]);
      fired.Some? && fired.value.0 == NewCallback(uid, k) && fired.value.1.ok
  {
    CallbacksWaitAtTarget(c, run, |run.labels|);
    WaitsOnlyThere(c, Last(run), m, NewCallback(uid, k));
    TargetIs(c, Last(run).tasks[uid].request, uid, k);
    var id, answer;
    longer, id, answer := AnswerReaches(c, run, uid, k, m, NewCallback(uid, k), true);
  }

  // ----- Which requests can still be answered ------------------------------------------------------

  /** All messages of the accepted, non-empty request `uid` are out. */
  ghost predicate AllOut(c: Config, s: System, uid: nat, count: nat)
    requires ValidConfig(c)
  {
    && uid in s.tasks && count > 0 && count == |SegmentsOf(c, s.tasks[uid].request)|
    && s.tasks[uid].phase == Sending(2 * count)
  }

  ghost predicate CanBeAnswered(c: Config, run: Run, uid: nat)
    requires ValidConfig(c)
  {
    exists longer :: Extends(c, run, longer) && Replied(Last(longer), uid)
  }

  /** The callback of send `k` has fired, or still waits. */
  ghost predicate Alive(run: Run, uid: nat, k: nat)
    requires |run.states| == |run.labels| + 1
  {
    FiredBefore(run, |run.labels|, NewCallback(uid, k)) || !Spent(Last(run), NewCallback(uid, k))
  }

  lemma WaitingSomewhere(s: System, call: Callback) returns (m: nat)
    requires call.ticket in s.tasks && s.tasks[call.ticket].phase.Sending?
    requires SendOf(call) < s.tasks[call.ticket].phase.sent && !Spent(s, call)
    ensures WaitsAt(s, m, call)
  {
    m :| m < |s.pending| && call.ticket in s.pending[m] && s.pending[m][call.ticket] == call;
  }

  lemma OvertakenIsAboutTasks(c: Config, s: System, s': System, uid: nat, k: nat)
    requires ValidConfig(c) && s.tasks == s'.tasks
    ensures Overtaken(c, s, uid, k) <==> Overtaken(c, s', uid, k)
  {
  }

  /** A callback stays alive while the tasks stay as they are. */
  lemma AliveStays(c: Config, run: Run, longer: Run, uid: nat, k: nat)
    requires ValidConfig(c) && IsRun(c, run) && Extends(c, run, longer) && Last(longer).tasks == Last(run).tasks
    requires Sent(Last(run), uid, k) && Alive(run, uid, k)
    ensures Alive(longer, uid, k)
  {
    var now, later := |run.labels|, |longer.labels|;
    PrefixOfRun(c, run, longer);
    FiredInBoth(c, run, longer, now, NewCallback(uid, k));
    CallbackFate(c, run, now, uid, k);
    CallbackFate(c, longer, later, uid, k);
    OvertakenIsAboutTasks(c, Last(run), Last(longer), uid, k);
    if FiredBefore(run, now, NewCallback(uid, k)) {
      FiredLater(longer, now, later, NewCallback(uid, k));
    }
  }

  /** The callback of send `k` waits for its answer. */
  ghost predicate Waiting(run: Run, uid: nat, k: nat)
    requires |run.states| == |run.labels| + 1
  {
    Sent(Last(run), uid, k) && !Spent(Last(run), NewCallback(uid, k))
  }

  /** It has fired with an OK answer. */
  ghost predicate FiredOk(run: Run, uid: nat, k: nat)
    requires |run.states| == |run.labels| + 1
  {
    exists t: nat :: OkAt(run, t, NewCallback(uid, k))
  }

  ghost predicate OkAt(run: Run, t: nat, call: Callback)
    requires |run.states| == |run.labels| + 1
  {
    FiredAt(run, t, call) && FiredBy(run.states[t], run.labels[t]).value.1.ok
  }

  /** Of the sends from `from` on, `longer` fires no callback that `run` had not. */
  ghost predicate SparesFrom(run: Run, longer: Run, uid: nat, from: nat)
    requires |run.states| == |run.labels| + 1 && |longer.states| == |longer.labels| + 1
  {
    forall k: nat | k >= from && FiredBefore(longer, |longer.labels|, NewCallback(uid, k)) ::
      FiredBefore(run, |run.labels|, NewCallback(uid, k))
  }

  /** A waiting callback can be made to fire with an OK answer, and nothing else fires. */
  lemma FireOne(c: Config, run: Run, uid: nat, k: nat) returns (longer: Run)
    requires ValidConfig(c) && IsRun(c, run) && Deliverable(c, Last(run), uid) && Waiting(run, uid, k)
    ensures Extends(c, run, longer) && Last(longer).tasks == Last(run).tasks
    ensures FiredOk(longer, uid, k) && SparesFrom(run, longer, uid, k + 1)
  {
    var m := WaitingSomewhere(Last(run), NewCallback(uid, k));
    longer := AnswerArrivesFor(c, run, uid, k, m);
    assert OkAt(longer, |run.labels| + 1, NewCallback(uid, k));
    forall j: nat | j >= k + 1 && FiredBefore(longer, |longer.labels|, NewCallback(uid, j))
      ensures FiredBefore(run, |run.labels|, NewCallback(uid, j))
    {
      OnlyOneFires(c, run, longer, NewCallback(uid, k), NewCallback(uid, j));
    }
  }

  lemma OnlyOneFires(c: Config, run: Run, longer: Run, call: Callback, other: Callback)
    requires ValidConfig(c) && IsRun(c, run) && Extends(c, run, longer) && |longer.labels| == |run.labels| + 2
    requires FiredBy(longer.states[|run.labels|], longer.labels[|run.labels|]) == None
    requires FiredAt(longer, |run.labels| + 1, call) && call != other
    requires FiredBefore(longer, |longer.labels|, other)
    ensures FiredBefore(run, |run.labels|, other)
  {
    FiredInBoth(c, run, longer, |run.labels|, other);
    FiredBeforeNext(longer, |run.labels|, other);
    FiredBeforeNext(longer, |run.labels| + 1, other);
  }

  lemma ExtendsTwice(c: Config, a: Run, b: Run, d: Run)
    requires ValidConfig(c) && Extends(c, a, b) && Extends(c, b, d)
    ensures Extends(c, a, d)
  {
  }

  lemma FiredOkStays(c: Config, run: Run, longer: Run, uid: nat, k: nat)
    requires ValidConfig(c) && IsRun(c, run) && Extends(c, run, longer) && FiredOk(run, uid, k)
    ensures FiredOk(longer, uid, k)
  {
    PrefixOfRun(c, run, longer);
    var t: nat :| OkAt(run, t, NewCallback(uid, k));
    assert OkAt(longer, t, NewCallback(uid, k));
  }

  /** Every callback among the first `sends` that waits in `run` has fired OK in `longer`. */
  ghost predicate FiresWaiting(run: Run, longer: Run, uid: nat, sends: nat)
    requires |run.states| == |run.labels| + 1 && |longer.states| == |longer.labels| + 1
  {
    forall k: nat | k < sends && Waiting(run, uid, k) :: FiredOk(longer, uid, k)
  }

  lemma FiresWaitingStays(c: Config, run: Run, before: Run, longer: Run, uid: nat, sends: nat)
    requires ValidConfig(c) && IsRun(c, run) && IsRun(c, before) && Extends(c, before, longer)
    requires FiresWaiting(run, before, uid, sends)
    ensures FiresWaiting(run, longer, uid, sends)
  {
    forall k: nat | k < sends && Waiting(run, uid, k)
      ensures FiredOk(longer, uid, k)
    {
      FiredOkStays(c, before, longer, uid, k);
    }
  }

  lemma StillWaiting(c: Config, run: Run, longer: Run, uid: nat, k: nat)
    requires ValidConfig(c) && IsRun(c, run) && Extends(c, run, longer) && Last(longer).tasks == Last(run).tasks
    requires Waiting(run, uid, k) && SparesFrom(run, longer, uid, k)
    ensures Waiting(longer, uid, k)
  {
    AliveStays(c, run, longer, uid, k);
    WaitingHasNotFired(c, run, |run.labels|, NewCallback(uid, k));
    assert !FiredBefore(longer, |longer.labels|, NewCallback(uid, k));
  }

  lemma FireNext(c: Config, run: Run, before: Run, uid: nat, k: nat) returns (longer: Run)
    requires ValidConfig(c) && IsRun(c, run) && Deliverable(c, Last(run), uid)
    requires Extends(c, run, before) && Last(before).tasks == Last(run).tasks
    requires FiresWaiting(run, before, uid, k) && SparesFrom(run, before, uid, k)
    ensures Extends(c, before, longer) && Last(longer).tasks == Last(run).tasks
    ensures Waiting(run, uid, k) ==> FiredOk(longer, uid, k)
    ensures SparesFrom(before, longer, uid, k + 1)
  {
    longer := before;
    if Waiting(run, uid, k) {
      StillWaiting(c, run, before, uid, k);
      longer := FireOne(c, before, uid, k);
    }
  }

  /** All waiting callbacks of a request can be made to fire OK, one after the other. */
  lemma {:induction false} FireAll(c: Config, run: Run, uid: nat, sends: nat) returns (longer: Run)
    requires ValidConfig(c) && IsRun(c, run) && Deliverable(c, Last(run), uid)
    ensures Extends(c, run, longer) && Last(longer).tasks == Last(run).tasks
    ensures FiresWaiting(run, longer, uid, sends) && SparesFrom(run, longer, uid, sends)
  {
    if sends == 0 {
      longer := run;
    } else {
      var before := FireAll(c, run, uid, sends - 1);
      longer := FireNext(c, run, before, uid, sends - 1);
      ExtendsTwice(c, run, before, longer);
      FiresWaitingStays(c, run, before, longer, uid, sends - 1);
    }
  }

  /** No callback of a colliding send has been left unfired. */
  ghost predicate CollisionsFired(c: Config, run: Run, uid: nat, sends: nat)
    requires |run.states| == |run.labels| + 1
  {
    forall k: nat, j: nat | k < j < sends && Collide(c.n, k, j) ::
      FiredBefore(run, |run.labels|, NewCallback(uid, k))
  }

  lemma AllOutInRange(c: Config, run: Run, uid: nat, count: nat)
    requires ValidConfig(c) && IsRun(c, run) && AllOut(c, Last(run), uid, count)
    ensures var r := Last(run).tasks[uid].request; r.offset + r.length <= c.n * c.chunk
  {
    RunKeeps(c, run, |run.labels|);
    assert TaskOk(c, Last(run), uid);
  }

  /** With all messages out, a callback is alive exactly if it has fired or no later send
      collided with it. */
  lemma AliveExactly(c: Config, run: Run, uid: nat, count: nat, k: nat)
    requires ValidConfig(c) && IsRun(c, run) && AllOut(c, Last(run), uid, count) && k < 2 * count
    ensures Alive(run, uid, k) <==>
      FiredBefore(run, |run.labels|, NewCallback(uid, k))
      || forall j: nat :: !(k < j < 2 * count && Collide(c.n, k, j))
  {
    CallbackFate(c, run, |run.labels|, uid, k);
    AllOutInRange(c, run, uid, count);
    var task := Last(run).tasks[uid];
    forall j: nat
      ensures Overtakes(c, task, k, j) <==> k < j < 2 * count && Collide(c.n, k, j)
    {
      if k < j < 2 * count {
        CollidingSends(c, task.request, k, j);
      }
    }
  }

  lemma AllAliveExactly(c: Config, run: Run, uid: nat, count: nat)
    requires ValidConfig(c) && IsRun(c, run) && AllOut(c, Last(run), uid, count)
    ensures (forall k: nat | k < 2 * count :: Alive(run, uid, k)) <==> CollisionsFired(c, run, uid, 2 * count)
  {
    forall k: nat | k < 2 * count
      ensures Alive(run, uid, k) <==>
        FiredBefore(run, |run.labels|, NewCallback(uid, k))
        || forall j: nat :: !(k < j < 2 * count && Collide(c.n, k, j))
    {
      AliveExactly(c, run, uid, count, k);
    }
  }

  /** Once all messages of a write are out, it can still be answered exactly if, for every
      two of its sends that went to the same minion, the answer to the first came back
      before the second was made. */
  lemma WriteCanBeAnsweredExactly(c: Config, run: Run, uid: nat, count: nat)
    requires ValidConfig(c) && IsRun(c, run) && Deliverable(c, Last(run), uid) && AllOut(c, Last(run), uid, count)
    requires Last(run).tasks[uid].request.op == Write
    ensures CanBeAnswered(c, run, uid) <==> CollisionsFired(c, run, uid, 2 * count)
  {
    AllAliveExactly(c, run, uid, count);
    if forall k: nat | k < 2 * count :: Alive(run, uid, k) {
      AliveWriteIsAnswered(c, run, uid, count);
    } else {
      var k: nat :| k < 2 * count && !Alive(run, uid, k);
      forall longer | Extends(c, run, longer)
        ensures !Replied(Last(longer), uid)
      {
        DeadWriteIsNot(c, run, longer, uid, count, k);
      }
    }
  }

  lemma AliveFires(c: Config, run: Run, longer: Run, uid: nat, sends: nat, k: nat)
    requires ValidConfig(c) && IsRun(c, run) && Extends(c, run, longer) && FiresWaiting(run, longer, uid, sends)
    requires k < sends && Sent(Last(run), uid, k) && Alive(run, uid, k)
    ensures FiredBefore(longer, |longer.labels|, NewCallback(uid, k))
  {
    PrefixOfRun(c, run, longer);
    if FiredBefore(run, |run.labels|, NewCallback(uid, k)) {
      FiredInBoth(c, run, longer, |run.labels|, NewCallback(uid, k));
      FiredLater(longer, |run.labels|, |longer.labels|, NewCallback(uid, k));
    } else {
      assert Waiting(run, uid, k);
      var t: nat :| OkAt(longer, t, NewCallback(uid, k));
      assert FiredAt(longer, t, NewCallback(uid, k));
    }
  }

  lemma AliveWriteIsAnswered(c: Config, run: Run, uid: nat, count: nat)
    requires ValidConfig(c) && IsRun(c, run) && Deliverable(c, Last(run), uid) && AllOut(c, Last(run), uid, count)
    requires Last(run).tasks[uid].request.op == Write
    requires forall k: nat | k < 2 * count :: Alive(run, uid, k)
    ensures CanBeAnswered(c, run, uid)
  {
    var longer := FireAll(c, run, uid, 2 * count);
    forall i: nat, role: Role | i < count
      ensures FiredBefore(longer, |longer.labels|, Callback(uid, i, role))
    {
      var k := if role == Primary then 2 * i else 2 * i + 1;
      assert Callback(uid, i, role) == NewCallback(uid, k);
      AliveFires(c, run, longer, uid, 2 * count, k);
    }
    WriteAnsweredExactly(c, longer, |longer.labels|, uid);
  }

  lemma DeadWriteIsNot(c: Config, run: Run, longer: Run, uid: nat, count: nat, k: nat)
    requires ValidConfig(c) && IsRun(c, run) && AllOut(c, Last(run), uid, count) && Extends(c, run, longer)
    requires Last(run).tasks[uid].request.op == Write && k < 2 * count && !Alive(run, uid, k)
    ensures !Replied(Last(longer), uid)
  {
    PrefixOfRun(c, run, longer);
    FiredInBoth(c, run, longer, |run.labels|, NewCallback(uid, k));
    RequestStays(c, longer, |run.labels|, |longer.labels|, uid);
    LostWriteIsNeverAnswered(c, longer, |run.labels|, |longer.labels|, uid, k);
  }

  // ----- The same of reads -------------------------------------------------------------------------

  /** Segment `i` of a read is settled, or one of its callbacks still waits. */
  ghost predicate Hopeful(run: Run, uid: nat, i: nat)
    requires |run.states| == |run.labels| + 1
  {
    Covered(Read, Heard(run, |run.labels|, uid), i) || Waiting(run, uid, 2 * i) || Waiting(run, uid, 2 * i + 1)
  }

  lemma OkIsHeard(run: Run, uid: nat, i: nat, role: Role)
    requires |run.states| == |run.labels| + 1
    requires FiredOk(run, uid, if role == Primary then 2 * i else 2 * i + 1)
    ensures AnsweredOk(Heard(run, |run.labels|, uid), i, role) && Answered(Heard(run, |run.labels|, uid), i, role)
  {
    var k := if role == Primary then 2 * i else 2 * i + 1;
    assert NewCallback(uid, k) == Callback(uid, i, role);
    var t: nat :| OkAt(run, t, NewCallback(uid, k));
    var j := FiredIsHeard(run, |run.labels|, t, Callback(uid, i, role));
    assert IsAnswer(Heard(run, |run.labels|, uid)[j], i, role);
  }

  lemma CoveredStays(c: Config, run: Run, longer: Run, uid: nat, i: nat)
    requires ValidConfig(c) && IsRun(c, run) && Extends(c, run, longer)
    requires Covered(Read, Heard(run, |run.labels|, uid), i)
    ensures Covered(Read, Heard(longer, |longer.labels|, uid), i)
  {
    PrefixOfRun(c, run, longer);
    HeardInBoth(c, run, longer, |run.labels|, uid);
    HeardGrows(longer, |run.labels|, |longer.labels|, uid);
    var before, after := Heard(run, |run.labels|, uid), Heard(longer, |longer.labels|, uid);
    assert before == after[..|before|] && after == after[..|after|];
    AnsweredGrows(after, |before|, |after|, i, Primary);
    AnsweredGrows(after, |before|, |after|, i, Backup);
  }

  lemma HopefulIsCovered(c: Config, run: Run, longer: Run, uid: nat, i: nat, sends: nat)
    requires ValidConfig(c) && IsRun(c, run) && Extends(c, run, longer) && FiresWaiting(run, longer, uid, sends)
    requires 2 * i + 1 < sends && Hopeful(run, uid, i)
    ensures Covered(Read, Heard(longer, |longer.labels|, uid), i)
  {
    if Covered(Read, Heard(run, |run.labels|, uid), i) {
      CoveredStays(c, run, longer, uid, i);
    } else if Waiting(run, uid, 2 * i) {
      OkIsHeard(longer, uid, i, Primary);
    } else {
      OkIsHeard(longer, uid, i, Backup);
    }
  }

  lemma HopefulReadIsAnswered(c: Config, run: Run, uid: nat, count: nat)
    requires ValidConfig(c) && IsRun(c, run) && Deliverable(c, Last(run), uid) && AllOut(c, Last(run), uid, count)
    requires Last(run).tasks[uid].request.op == Read && forall i: nat | i < count :: Hopeful(run, uid, i)
    ensures CanBeAnswered(c, run, uid)
  {
    var longer := FireAll(c, run, uid, 2 * count);
    forall i: nat | i < count
      ensures Covered(Read, Heard(longer, |longer.labels|, uid), i)
    {
      HopefulIsCovered(c, run, longer, uid, i, 2 * count);
    }
    AnsweredExactly(c, longer, |longer.labels|, uid);
  }

  /** What a longer run has heard of a mirror whose callback does not wait any more. */
  lemma NothingNewHeard(c: Config, run: Run, longer: Run, uid: nat, i: nat, role: Role)
    requires ValidConfig(c) && IsRun(c, run) && Extends(c, run, longer)
    requires var k := if role == Primary then 2 * i else 2 * i + 1;
      Sent(Last(run), uid, k) && !Waiting(run, uid, k)
    ensures var before, after := Heard(run, |run.labels|, uid), Heard(longer, |longer.labels|, uid);
      && (Answered(after, i, role) ==> Answered(before, i, role))
      && (AnsweredOk(after, i, role) ==> AnsweredOk(before, i, role))
  {
    var k := if role == Primary then 2 * i else 2 * i + 1;
    assert NewCallback(uid, k) == Callback(uid, i, role);
    PrefixOfRun(c, run, longer);
    HeardInBoth(c, run, longer, |run.labels|, uid);
    HeardGrows(longer, |run.labels|, |longer.labels|, uid);
    HeardDistinct(c, longer, |longer.labels|, uid);
    var before, after := Heard(run, |run.labels|, uid), Heard(longer, |longer.labels|, uid);
    assert before == after[..|before|];
    if Answered(after, i, role) {
      DeadWasHeard(c, run, longer, uid, k);
      AnsweredIsFired(run, |run.labels|, uid, i, role);
      AnsweredIsFired(longer, |longer.labels|, uid, i, role);
      OkAnswerIsUnique(after, |before|, i, role);
    }
    OkIsAnswer(after, i, role);
  }

  lemma DeadWasHeard(c: Config, run: Run, longer: Run, uid: nat, k: nat)
    requires ValidConfig(c) && IsRun(c, run) && Extends(c, run, longer)
    requires Sent(Last(run), uid, k) && !Waiting(run, uid, k)
    ensures FiredBefore(longer, |longer.labels|, NewCallback(uid, k)) ==>
      FiredBefore(run, |run.labels|, NewCallback(uid, k))
  {
    PrefixOfRun(c, run, longer);
    FiredInBoth(c, run, longer, |run.labels|, NewCallback(uid, k));
    if !FiredBefore(run, |run.labels|, NewCallback(uid, k)) {
      LostForGood(c, longer, |run.labels|, |longer.labels|, uid, k);
    }
  }

  lemma HopelessReadIsNot(c: Config, run: Run, longer: Run, uid: nat, count: nat, i: nat)
    requires ValidConfig(c) && IsRun(c, run) && AllOut(c, Last(run), uid, count) && Extends(c, run, longer)
    requires Last(run).tasks[uid].request.op == Read && i < count && !Hopeful(run, uid, i)
    ensures !Replied(Last(longer), uid)
  {
    PrefixOfRun(c, run, longer);
    RequestStays(c, longer, |run.labels|, |longer.labels|, uid);
    AnsweredExactly(c, longer, |longer.labels|, uid);
    NothingNewHeard(c, run, longer, uid, i, Primary);
    NothingNewHeard(c, run, longer, uid, i, Backup);
    assert !Covered(Read, Heard(longer, |longer.labels|, uid), i);
  }

  /** Once all messages of a read are out, it can still be answered exactly if each of its
      segments is settled or has a callback that still waits, that is, one that has not
      fired and was not replaced. */
  lemma ReadCanBeAnsweredExactly(c: Config, run: Run, uid: nat, count: nat)
    requires ValidConfig(c) && IsRun(c, run) && Deliverable(c, Last(run), uid) && AllOut(c, Last(run), uid, count)
    requires Last(run).tasks[uid].request.op == Read
    ensures CanBeAnswered(c, run, uid) <==> forall i: nat | i < count :: Hopeful(run, uid, i)
  {
    if forall i: nat | i < count :: Hopeful(run, uid, i) {
      HopefulReadIsAnswered(c, run, uid, count);
    } else {
      var i: nat :| i < count && !Hopeful(run, uid, i);
      forall longer | Extends(c, run, longer)
        ensures !Replied(Last(longer), uid)
      {
        HopelessReadIsNot(c, run, longer, uid, count, i);
      }
    }
  }
}
