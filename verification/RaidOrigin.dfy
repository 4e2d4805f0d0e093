/** Where datagrams come from: in every run, each request datagram is one send of a
    request that was read, and each answer was computed by that minion from it. */
module RaidOrigin {
  import opened Types
  import opened StripeSplitter
  import opened Codec
  import opened MirrorTicket
  import opened Minion
  import opened MinionManager
  import opened MasterProxies
  import opened RaidSystem
  import opened RaidInvariant

  /** The `k`-th send of request `uid`, with the byte behind a write's slice. */
  datatype SendId = SendId(uid: nat, k: nat, trailer: Byte)

  /** The send belongs to an accepted request and addresses minion `m`. */
  ghost predicate ValidSend(c: Config, s: System, m: nat, id: SendId)
    requires ValidConfig(c)
  {
    && id.uid in s.tasks && s.tasks[id.uid].phase.Sending?
    && var r := s.tasks[id.uid].request;
       && id.uid < U64 && ValidRequest(r) && r.offset + r.length <= c.n * c.chunk
       && id.k < s.tasks[id.uid].phase.sent <= 2 * |SegmentsOf(c, r)|
       && BufferFits(r.op, SegmentsOf(c, r), r.data)
       && OutgoingOf(c, r, id.uid, id.k, id.trailer).minion == m
  }

  function MessageOf(c: Config, s: System, m: nat, id: SendId): Message
    requires ValidConfig(c) && ValidSend(c, s, m, id)
  {
    OutgoingOf(c, s.tasks[id.uid].request, id.uid, id.k, id.trailer).message
  }

  ghost predicate IsSend(c: Config, s: System, m: nat, packet: seq<Byte>, id: SendId)
    requires ValidConfig(c)
  {
    ValidSend(c, s, m, id) && packet == Encode(MessageOf(c, s, m, id))
  }

  ghost predicate WasSent(c: Config, s: System, m: nat, packet: seq<Byte>)
    requires ValidConfig(c)
  {
    exists id :: IsSend(c, s, m, packet, id)
  }

  ghost predicate AllSent(c: Config, s: System)
    requires ValidConfig(c)
  {
    forall m, packet | (m, packet) in s.toMinion :: WasSent(c, s, m, packet)
  }

  /** Requests stay what they are, and phases only move forward. */
  ghost predicate Follows(s: System, s': System)
  {
    forall uid | uid in s.tasks ::
      && uid in s'.tasks && s'.tasks[uid].request == s.tasks[uid].request
      && (s.tasks[uid].phase.Sending? ==>
            s'.tasks[uid].phase.Sending? && s'.tasks[uid].phase.sent >= s.tasks[uid].phase.sent)
  }

  lemma CallFollows(s: System, call: Callback, answer: Answer, noise: seq<Byte>)
    ensures AfterCall(s, call, answer, noise).tasks == s.tasks
    ensures AfterCall(s, call, answer, noise).pending == s.pending
    ensures AfterCall(s, call, answer, noise).toMinion == s.toMinion
    ensures AfterCall(s, call, answer, noise).toMaster == s.toMaster
  {
  }

  lemma WakeupFollows(s: System, m: nat, packet: seq<Byte>, noise: seq<Byte>)
    requires m < |s.pending|
    ensures AfterWakeup(s, m, packet, noise).tasks == s.tasks
    ensures AfterWakeup(s, m, packet, noise).toMinion == s.toMinion
    ensures AfterWakeup(s, m, packet, noise).toMaster == s.toMaster
  {
    var w := Wake(s.pending[m], Deliver(packet));
    if w.call.Some? {
      CallFollows(s.(pending := s.pending[m := w.pending]), w.call.value.0, w.call.value.1, noise);
    }
  }

  lemma OpenTicketFollows(c: Config, s: System, uid: nat)
    requires ValidConfig(c) && uid in s.tasks && s.tasks[uid].phase == Queued
    ensures Follows(s, AfterOpenTicket(c, s, uid))
    ensures AfterOpenTicket(c, s, uid).toMinion == s.toMinion
    ensures AfterOpenTicket(c, s, uid).toMaster == s.toMaster
  {
  }

  lemma SendFollows(c: Config, s: System, uid: nat, trailer: Byte)
    requires ValidConfig(c) && CanSend(c, s, uid)
    ensures Follows(s, AfterSend(c, s, uid, trailer))
    ensures AfterSend(c, s, uid, trailer).toMaster == s.toMaster
  {
  }

  lemma ServeFollows(s: System, m: nat, packet: seq<Byte>, good: bool, noise: seq<Byte>)
    requires m < |s.stores|
    ensures AfterServe(s, m, packet, good, noise).tasks == s.tasks
    ensures AfterServe(s, m, packet, good, noise).toMinion == s.toMinion
  {
  }

  /** Only `Send` adds requests to the network, and only `Serve` adds answers. */
  lemma StepFollows(c: Config, s: System, l: Label)
    requires ValidConfig(c) && s.nextUid !in s.tasks && Enabled(c, s, l)
    ensures Follows(s, Apply(c, s, l))
    ensures !l.Send? ==> Apply(c, s, l).toMinion == s.toMinion
    ensures !l.Serve? ==> Apply(c, s, l).toMaster == s.toMaster
  {
    match l
    case NewRequest(r) =>
    case Announce(uid) =>
    case OpenTicket(uid) => OpenTicketFollows(c, s, uid);
    case Send(uid, trailer) => SendFollows(c, s, uid, trailer);
    case Serve(m, packet, good, noise) => ServeFollows(s, m, packet, good, noise);
    case Wakeup(m, packet, noise) => WakeupFollows(s, m, packet, noise);
  }

  lemma FreshUid(c: Config, s: System)
    requires ValidConfig(c) && Tasks(c, s)
    ensures s.nextUid !in s.tasks
  {
    assert s.nextUid in s.tasks ==> TaskOk(c, s, s.nextUid);
  }

  lemma RunFollows(c: Config, run: Run, t: nat)
    requires ValidConfig(c) && IsRun(c, run) && t < |run.labels|
    ensures Follows(run.states[t], run.states[t + 1])
    ensures !run.labels[t].Send? ==> run.states[t + 1].toMinion == run.states[t].toMinion
    ensures !run.labels[t].Serve? ==> run.states[t + 1].toMaster == run.states[t].toMaster
  {
    RunKeeps(c, run, t);
    FreshUid(c, run.states[t]);
    StepOfRun(c, run, t);
    StepFollows(c, run.states[t], run.labels[t]);
  }

  lemma SendStays(c: Config, s: System, s': System, m: nat, id: SendId)
    requires ValidConfig(c) && ValidSend(c, s, m, id) && Follows(s, s') && Tasks(c, s')
    ensures ValidSend(c, s', m, id) && MessageOf(c, s', m, id) == MessageOf(c, s, m, id)
  {
    assert TaskOk(c, s', id.uid);
  }

  lemma NewSend(c: Config, s: System, uid: nat, trailer: Byte, m: nat, packet: seq<Byte>)
    requires ValidConfig(c) && Tasks(c, s) && CanSend(c, s, uid)
    requires var s' := AfterSend(c, s, uid, trailer); (m, packet) in s'.toMinion && (m, packet) !in s.toMinion
    ensures IsSend(c, AfterSend(c, s, uid, trailer), m, packet, SendId(uid, s.tasks[uid].phase.sent, trailer))
  {
    assert TaskOk(c, s, uid);
  }

  lemma SentByStep(c: Config, run: Run, t: nat, m: nat, packet: seq<Byte>)
    requires ValidConfig(c) && IsRun(c, run) && t < |run.labels|
    requires (m, packet) in run.states[t + 1].toMinion && (m, packet) !in run.states[t].toMinion
    ensures WasSent(c, run.states[t + 1], m, packet)
  {
    RunFollows(c, run, t);
    RunKeeps(c, run, t);
    StepOfRun(c, run, t);
    var uid, trailer := run.labels[t].uid, run.labels[t].trailer;
    NewSend(c, run.states[t], uid, trailer, m, packet);
    assert IsSend(c, run.states[t + 1], m, packet, SendId(uid, run.states[t].tasks[uid].phase.sent, trailer));
  }

  /** Every request datagram is a send of an accepted request. */
  lemma {:induction false} RequestsAreSends(c: Config, run: Run, t: nat)
    requires ValidConfig(c) && IsRun(c, run) && t < |run.states|
    ensures AllSent(c, run.states[t])
  {
    if t > 0 {
      RequestsAreSends(c, run, t - 1);
      RunFollows(c, run, t - 1);
      RunKeeps(c, run, t);
      forall m, packet | (m, packet) in run.states[t].toMinion
        ensures WasSent(c, run.states[t], m, packet)
      {
        if (m, packet) in run.states[t - 1].toMinion {
          assert WasSent(c, run.states[t - 1], m, packet);
          var id :| IsSend(c, run.states[t - 1], m, packet, id);
          SendStays(c, run.states[t - 1], run.states[t], m, id);
          assert IsSend(c, run.states[t], m, packet, id);
        } else {
          SentByStep(c, run, t - 1, m, packet);
        }
      }
    }
  }

  // ----- Messages survive the wire or vanish ------------------------------------------------

  lemma SendFitsWire(c: Config, s: System, m: nat, id: SendId)
    requires ValidConfig(c) && ValidSend(c, s, m, id)
    ensures var message, seg := MessageOf(c, s, m, id), SegmentsOf(c, s.tasks[id.uid].request)[id.k / 2];
      && WellFormed(message) && Size(message) < U32 && message.uid == id.uid
      && (message.ReadSend? || message.WriteSend?)
      && message.offset == seg.localOffset && message.length == seg.length
      && message.offset + message.length <= c.chunk
  {
    var r := s.tasks[id.uid].request;
    SegmentTranslates(r.offset, r.length, c.chunk, c.n, id.k / 2);
  }

  /** A minion either gets a request as it was sent or does not get it. */
  lemma RequestArrives(c: Config, s: System, m: nat, packet: seq<Byte>, id: SendId)
    requires ValidConfig(c) && IsSend(c, s, m, packet, id)
    ensures Deliver(packet) == None || Deliver(packet) == Some(MessageOf(c, s, m, id))
  {
    SendFitsWire(c, s, m, id);
    DeliveredIffFits(MessageOf(c, s, m, id));
  }

  // ----- Answers ---------------------------------------------------------------------------

  /** Step `t` of the run: minion `m` serves `request` from the file it has then. */
  ghost predicate ServedAt(run: Run, t: nat, m: nat, request: Message, answer: Message)
    requires |run.states| == |run.labels| + 1
  {
    && t < |run.labels| && run.labels[t].Serve? && run.labels[t].minion == m
    && var s, l := run.states[t], run.labels[t];
       && m < |s.stores| && (m, l.packet) in s.toMinion
       && Deliver(l.packet) == Some(request)
       && AnswerTo(s.stores[m], request, l.good, l.noise) == Some(answer)
  }

  /** The answer that minion `m` gave at step `t` to the send `id`. */
  datatype Origin = Origin(id: SendId, t: nat, answer: Message)

  /** Known in state `now` of the run. */
  ghost predicate Genuine(c: Config, run: Run, now: nat, m: nat, o: Origin)
    requires ValidConfig(c) && |run.states| == |run.labels| + 1 && now < |run.states|
  {
    && o.t < now
    && ValidSend(c, run.states[now], m, o.id)
    && ServedAt(run, o.t, m, MessageOf(c, run.states[now], m, o.id), o.answer)
  }

  ghost predicate HasOrigin(c: Config, run: Run, now: nat, m: nat, packet: seq<Byte>)
    requires ValidConfig(c) && |run.states| == |run.labels| + 1 && now < |run.states|
  {
    exists o :: Genuine(c, run, now, m, o) && packet == Encode(o.answer)
  }

  ghost predicate AllGenuine(c: Config, run: Run, now: nat)
    requires ValidConfig(c) && |run.states| == |run.labels| + 1 && now < |run.states|
  {
    forall m, packet | (m, packet) in run.states[now].toMaster :: HasOrigin(c, run, now, m, packet)
  }

  /** What was genuine stays so as the run goes on. */
  lemma GenuineStays(c: Config, run: Run, now: nat, m: nat, o: Origin)
    requires ValidConfig(c) && IsRun(c, run) && now < |run.labels|
    requires Genuine(c, run, now, m, o)
    ensures Genuine(c, run, now + 1, m, o)
  {
    RunFollows(c, run, now);
    RunKeeps(c, run, now + 1);
    SendStays(c, run.states[now], run.states[now + 1], m, o.id);
  }

  lemma AddedAnswer(s: System, l: Label, m: nat, packet: seq<Byte>)
    requires l.Serve? && l.minion < |s.stores|
    requires var s' := AfterServe(s, l.minion, l.packet, l.good, l.noise);
      (m, packet) in s'.toMaster && (m, packet) !in s.toMaster
    ensures m == l.minion && Deliver(l.packet).Some?
    ensures var answer := AnswerTo(s.stores[m], Deliver(l.packet).value, l.good, l.noise);
      answer.Some? && packet == Encode(answer.value)
  {
  }

  lemma NewAnswer(c: Config, run: Run, t: nat, m: nat, packet: seq<Byte>)
    requires ValidConfig(c) && IsRun(c, run) && t < |run.labels| && AllSent(c, run.states[t])
    requires (m, packet) in run.states[t + 1].toMaster && (m, packet) !in run.states[t].toMaster
    ensures HasOrigin(c, run, t + 1, m, packet)
  {
    var s, l := run.states[t], run.labels[t];
    RunFollows(c, run, t);
    StepOfRun(c, run, t);
    AddedAnswer(s, l, m, packet);
    assert WasSent(c, s, m, l.packet);
    var id :| IsSend(c, s, m, l.packet, id);
    RequestArrives(c, s, m, l.packet, id);
    var answer := AnswerTo(s.stores[m], MessageOf(c, s, m, id), l.good, l.noise).value;
    AnswerIsGenuine(c, run, t, m, id, answer);
    assert Genuine(c, run, t + 1, m, Origin(id, t, answer));
  }

  lemma AnswerIsGenuine(c: Config, run: Run, t: nat, m: nat, id: SendId, answer: Message)
    requires ValidConfig(c) && IsRun(c, run) && t < |run.labels|
    requires ValidSend(c, run.states[t], m, id)
    requires ServedAt(run, t, m, MessageOf(c, run.states[t], m, id), answer)
    ensures Genuine(c, run, t + 1, m, Origin(id, t, answer))
  {
    RunFollows(c, run, t);
    RunKeeps(c, run, t + 1);
    SendStays(c, run.states[t], run.states[t + 1], m, id);
  }

  lemma NextGenuine(c: Config, run: Run, now: nat, m: nat, packet: seq<Byte>)
    requires ValidConfig(c) && IsRun(c, run) && now < |run.labels| && AllGenuine(c, run, now)
    requires AllSent(c, run.states[now]) && (m, packet) in run.states[now + 1].toMaster
    ensures HasOrigin(c, run, now + 1, m, packet)
  {
    if (m, packet) in run.states[now].toMaster {
      assert HasOrigin(c, run, now, m, packet);
      var o :| Genuine(c, run, now, m, o) && packet == Encode(o.answer);
      GenuineStays(c, run, now, m, o);
    } else {
      NewAnswer(c, run, now, m, packet);
    }
  }

  /** Every answer datagram was computed by its minion from a send of an accepted
      request, before the answer was there. */
  lemma {:induction false} AnswersAreGenuine(c: Config, run: Run, now: nat)
    requires ValidConfig(c) && IsRun(c, run) && now < |run.states|
    ensures AllGenuine(c, run, now)
  {
    if now > 0 {
      AnswersAreGenuine(c, run, now - 1);
      RequestsAreSends(c, run, now - 1);
      forall m, packet | (m, packet) in run.states[now].toMaster
        ensures HasOrigin(c, run, now, m, packet)
      {
        NextGenuine(c, run, now - 1, m, packet);
      }
    }
  }

  /** The master either gets an answer as it was sent or does not get it. */
  lemma AnswerArrives(c: Config, run: Run, now: nat, m: nat, o: Origin)
    requires ValidConfig(c) && IsRun(c, run) && now < |run.states| && Genuine(c, run, now, m, o)
    ensures Deliver(Encode(o.answer)) == None || Deliver(Encode(o.answer)) == Some(o.answer)
    ensures o.answer.uid == o.id.uid && (o.answer.ReadReceive? || o.answer.WriteReceive?)
  {
    SendFitsWire(c, run.states[now], m, o.id);
    DeliveredIffFits(o.answer);
  }
}
