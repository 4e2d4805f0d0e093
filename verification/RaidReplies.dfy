/** What an OK reply to a request inside one chunk promises, in every run. */
module RaidReplies {
  import opened Types
  import opened Codec
  import opened MirrorTicket
  import opened ReadAssembly
  import opened Minion
  import opened MinionManager
  import opened MasterProxies
  import opened RaidSystem
  import opened RaidInvariant
  import opened RaidOrigin
  import opened RaidSafety

  lemma TargetIsMirror(c: Config, r: Request, call: Callback)
    requires ValidConfig(c) && |SegmentsOf(c, r)| == 1 && call.segment < 1
    ensures TargetOf(c, r, call) == MirrorOf(c, r, call.role)
  {
  }

  lemma NewIsEmpty(t: State, role: Role)
    requires IsNew(t) && |t.segments| == 1
    ensures MessageFor(t.segments[0], role) == None
  {
  }

  lemma AcceptRecords(t: State, r: Response, role: Role)
    requires |Accept(t, r).segments| == 1
    ensures |t.segments| == 1
    ensures
      || MessageFor(Accept(t, r).segments[0], role) == MessageFor(t.segments[0], role)
      || (r.segment == 0 && r.role == role && MessageFor(Accept(t, r).segments[0], role) == r.message)
  {
  }

  lemma RecordedAnswer(c: Config, run: Run, now: nat, uid: nat)
    requires ValidConfig(c) && IsRun(c, run) && now < |run.labels|
    requires FiredBy(run.states[now], run.labels[now]).Some?
    requires FiredBy(run.states[now], run.labels[now]).value.0.ticket == uid
    requires FiredBy(run.states[now], run.labels[now]).value.0.segment == 0
    requires uid in run.states[now].tasks && |SegmentsOf(c, run.states[now].tasks[uid].request)| == 1
    ensures var (call, answer) := FiredBy(run.states[now], run.labels[now]).value;
      OwnAnswer(c, run, now + 1, MirrorOf(c, run.states[now].tasks[uid].request, call.role), uid, answer)
  {
    var (call, answer) := FiredBy(run.states[now], run.labels[now]).value;
    CallbackGetsOwnAnswer(c, run, now);
    TargetIsMirror(c, run.states[now].tasks[uid].request, call);
    OwnAnswerStays(c, run, now, run.labels[now].minion, uid, answer);
  }

  lemma TicketKnownStep(c: Config, run: Run, now: nat, uid: nat, role: Role)
    requires ValidConfig(c) && IsRun(c, run) && now < |run.labels|
    requires TicketKnown(c, run, now, uid, role)
    requires var s' := run.states[now + 1]; uid in s'.state && |s'.state[uid].segments| == 1
    requires MessageFor(run.states[now + 1].state[uid].segments[0], role).Some?
    ensures uid in run.states[now + 1].tasks
    ensures OwnAnswer(c, run, now + 1, MirrorOf(c, run.states[now + 1].tasks[uid].request, role), uid,
                      MessageFor(run.states[now + 1].state[uid].segments[0], role).value)
  {
    var s, s', l := run.states[now], run.states[now + 1], run.labels[now];
    RunKeeps(c, run, now);
    RunKeeps(c, run, now + 1);
    RunFollows(c, run, now);
    StepOfRun(c, run, now);
    TicketStep(c, s, l, uid);
    if uid !in s.state {
      NewIsEmpty(s'.state[uid], role);
      assert false;
    } else {
      assert TaskOk(c, s, uid);
      var r, message := s.tasks[uid].request, MessageFor(s'.state[uid].segments[0], role);
      if s'.state[uid] == s.state[uid] {
        OwnAnswerStays(c, run, now, MirrorOf(c, r, role), uid, message.value);
      } else {
        var (call, answer) := FiredBy(s, l).value;
        AcceptRecords(s.state[uid], Response(call.segment, call.role, Some(answer)), role);
        if message == MessageFor(s.state[uid].segments[0], role) {
          OwnAnswerStays(c, run, now, MirrorOf(c, r, role), uid, message.value);
        } else {
          RecordedAnswer(c, run, now, uid);
        }
      }
    }
  }

  lemma {:induction false} TicketsKnown(c: Config, run: Run, now: nat, uid: nat, role: Role)
    requires ValidConfig(c) && IsRun(c, run) && now < |run.states|
    ensures TicketKnown(c, run, now, uid, role)
  {
    if now > 0 {
      TicketsKnown(c, run, now - 1, uid, role);
      var s := run.states[now];
      if uid in s.state && |s.state[uid].segments| == 1 && MessageFor(s.state[uid].segments[0], role).Some? {
        TicketKnownStep(c, run, now - 1, uid, role);
      }
    }
  }

  // ----- From an answer back to the file ---------------------------------------------------------

  /** At step `t` minion `m` handles a message of request `uid`, and the file operation
      succeeds. */
  ghost predicate ServesWell(run: Run, t: nat, m: nat, uid: nat)
    requires |run.states| == |run.labels| + 1
  {
    && t < |run.labels| && run.labels[t].Serve? && run.labels[t].minion == m && run.labels[t].good
    && Deliver(run.labels[t].packet).Some? && Deliver(run.labels[t].packet).value.uid == uid
  }

  /** At step `t`, after request `uid` was read from the kernel, minion `m` serves it and so
      stores exactly `data` at local offset `local` of its file, and nothing else changes
      there. */
  ghost predicate StoredAt(run: Run, t: nat, m: nat, uid: nat, local: nat, data: seq<Byte>)
    requires |run.states| == |run.labels| + 1
  {
    && ServesWell(run, t, m, uid) && uid in run.states[t].tasks
    && m < |run.states[t].stores| && m < |run.states[t + 1].stores|
    && local + |data| <= |run.states[t].stores[m]|
    && run.states[t + 1].stores[m] == Overlay(run.states[t].stores[m], local, data)
  }

  /** At step `t`, after request `uid` was read from the kernel, minion `m` serves it and
      holds `data` at local offset `local` of its file. */
  ghost predicate HeldAt(run: Run, t: nat, m: nat, uid: nat, local: nat, data: seq<Byte>)
    requires |run.states| == |run.labels| + 1
  {
    && ServesWell(run, t, m, uid) && uid in run.states[t].tasks
    && m < |run.states[t].stores|
    && local + |data| <= |run.states[t].stores[m]|
    && run.states[t].stores[m][local..local + |data|] == data
  }

  /** A request is served only after it was read. */
  lemma ServedAfterRead(c: Config, run: Run, t: nat, m: nat, request: Message, answer: Message)
    requires ValidConfig(c) && IsRun(c, run) && ServedAt(run, t, m, request, answer)
    ensures request.uid in run.states[t].tasks
  {
    var packet := run.labels[t].packet;
    RequestsAreSends(c, run, t);
    assert WasSent(c, run.states[t], m, packet);
    var id :| IsSend(c, run.states[t], m, packet, id);
    RequestArrives(c, run.states[t], m, packet, id);
    SendFitsWire(c, run.states[t], m, id);
  }

  lemma ServeStores(s: System, l: Label, request: Message)
    requires l.Serve? && l.minion < |s.stores| && Deliver(l.packet) == Some(request)
    ensures AfterServe(s, l.minion, l.packet, l.good, l.noise).stores
      == s.stores[l.minion := CellsAfter(s.stores[l.minion], request, l.good, l.noise)]
  {
  }

  /** The request message of a send. */
  lemma SendMessage(c: Config, s: System, m: nat, id: SendId)
    requires ValidConfig(c) && ValidSend(c, s, m, id)
    ensures var r := s.tasks[id.uid].request; var seg := SegmentsOf(c, r)[id.k / 2];
      MessageOf(c, s, m, id) ==
        if r.op == Read then ReadSend(id.uid, seg.localOffset, seg.length)
        else WriteSend(id.uid, seg.localOffset, seg.length, Slice(r.data, seg) + [id.trailer])
  {
  }

  /** An OK answer to a send of a write: its slice has been stored. */
  lemma OkWriteStored(c: Config, run: Run, now: nat, m: nat, o: Origin)
    requires ValidConfig(c) && IsRun(c, run) && now < |run.states| && Genuine(c, run, now, m, o)
    requires run.states[now].tasks[o.id.uid].request.op == Write
    requires AnswerOf(o.answer).Some? && AnswerOf(o.answer).value.ok
    ensures var r := run.states[now].tasks[o.id.uid].request; var seg := SegmentsOf(c, r)[o.id.k / 2];
      StoredAt(run, o.t, m, o.id.uid, seg.localOffset, Slice(r.data, seg))
  {
    var s, l := run.states[o.t], run.labels[o.t];
    var r := run.states[now].tasks[o.id.uid].request;
    var seg := SegmentsOf(c, r)[o.id.k / 2];
    SendMessage(c, run.states[now], m, o.id);
    SendFitsWire(c, run.states[now], m, o.id);
    var request := MessageOf(c, run.states[now], m, o.id);
    StepOfRun(c, run, o.t);
    ServeStores(s, l, request);
    ServedAfterRead(c, run, o.t, m, request, o.answer);
    assert (Slice(r.data, seg) + [o.id.trailer])[..seg.length] == Slice(r.data, seg);
  }

  /** An OK answer to a send of a read: its data is what the file held. */
  lemma OkReadHeld(c: Config, run: Run, now: nat, m: nat, o: Origin)
    requires ValidConfig(c) && IsRun(c, run) && now < |run.states| && Genuine(c, run, now, m, o)
    requires run.states[now].tasks[o.id.uid].request.op == Read
    requires AnswerOf(o.answer).Some? && AnswerOf(o.answer).value.ok
    ensures var seg := SegmentsOf(c, run.states[now].tasks[o.id.uid].request)[o.id.k / 2];
      var data := AnswerOf(o.answer).value.data;
      data.Some? && |data.value| == seg.length && HeldAt(run, o.t, m, o.id.uid, seg.localOffset, data.value)
  {
    SendMessage(c, run.states[now], m, o.id);
    SendFitsWire(c, run.states[now], m, o.id);
    ServedAfterRead(c, run, o.t, m, MessageOf(c, run.states[now], m, o.id), o.answer);
  }

  lemma OneChunkSlice(c: Config, r: Request)
    requires ValidConfig(c) && OneChunk(c, r) && ValidRequest(r)
    ensures |SegmentsOf(c, r)| == 1
    ensures var seg := SegmentsOf(c, r)[0];
      && seg.localOffset == r.offset % c.chunk && seg.length == r.length && seg.bufferOffset == 0
      && (r.op == Write ==> Slice(r.data, seg) == r.data)
  {
    OneSegment(c, r);
  }

  // ----- The promises ---------------------------------------------------------------------------------

  lemma OneChunkTicket(c: Config, run: Run, now: nat, i: nat)
    requires ValidConfig(c) && IsRun(c, run) && now < |run.states| && i < |run.states[now].replies|
    ensures var s, reply := run.states[now], run.states[now].replies[i];
      && reply.uid in s.tasks && reply.uid in s.state && ReplyCarries(reply, s.state[reply.uid])
      && TicketMatches(c, s.state[reply.uid], s.tasks[reply.uid].request)
  {
    RunKeeps(c, run, now);
    var s := run.states[now];
    assert ReplyOk(s, s.replies[i]);
    assert TaskOk(c, s, s.replies[i].uid);
  }

  lemma OkMirrorStored(c: Config, run: Run, now: nat, uid: nat, role: Role) returns (t: nat)
    requires ValidConfig(c) && IsRun(c, run) && now < |run.states|
    requires var s := run.states[now];
      && uid in s.tasks && uid in s.state && s.tasks[uid].request.op == Write
      && OneChunk(c, s.tasks[uid].request) && |s.state[uid].segments| == 1
      && Ok(MessageFor(s.state[uid].segments[0], role))
    ensures var r := run.states[now].tasks[uid].request;
      t < now && StoredAt(run, t, MirrorOf(c, r, role), uid, r.offset % c.chunk, r.data)
  {
    var s := run.states[now];
    var m, message := MirrorOf(c, s.tasks[uid].request, role), MessageFor(s.state[uid].segments[0], role);
    TicketsKnown(c, run, now, uid, role);
    var o :| Genuine(c, run, now, m, o) && o.id.uid == uid && AnswerOf(o.answer) == Some(message.value);
    OneChunkSlice(c, s.tasks[uid].request);
    OkWriteStored(c, run, now, m, o);
    t := o.t;
  }

  /** A write reply without error is sent only after both the primary and the backup
      minion have stored exactly the written bytes at the request's local offset. */
  lemma WriteReplySafe(c: Config, run: Run, now: nat, i: nat)
    requires ValidConfig(c) && IsRun(c, run) && now < |run.states| && i < |run.states[now].replies|
    requires var s, reply := run.states[now], run.states[now].replies[i];
      && reply.error == 0 && reply.uid in s.tasks
      && s.tasks[reply.uid].request.op == Write && OneChunk(c, s.tasks[reply.uid].request)
    ensures var uid := run.states[now].replies[i].uid; var r := run.states[now].tasks[uid].request;
      && (exists t: nat :: t < now && StoredAt(run, t, MirrorOf(c, r, Primary), uid, r.offset % c.chunk, r.data))
      && (exists t: nat :: t < now && StoredAt(run, t, MirrorOf(c, r, Backup), uid, r.offset % c.chunk, r.data))
  {
    var s := run.states[now];
    var uid := s.replies[i].uid;
    OneChunkTicket(c, run, now, i);
    OneSegment(c, s.tasks[uid].request);
    assert Successful(Write, s.state[uid].segments[0]);
    var t := OkMirrorStored(c, run, now, uid, Primary);
    var u := OkMirrorStored(c, run, now, uid, Backup);
  }

  /** A one-segment buffer is the chosen answer's data. */
  lemma OnePiece(init: seq<Byte>, seg: SegmentState, data: seq<Byte>)
    requires seg.bufferOffset == 0 && seg.length == |init| == |data|
    requires Select(seg).Some? && Select(seg).value.data == Some(data)
    ensures Assemble(init, [seg]) == data
  {
    assert [seg][..0] == [];
    assert Assemble(init, [seg]) == Overlay(init, 0, data);
  }

  lemma OkMirrorHeld(c: Config, run: Run, now: nat, uid: nat, role: Role) returns (t: nat)
    requires ValidConfig(c) && IsRun(c, run) && now < |run.states|
    requires var s := run.states[now];
      && uid in s.tasks && uid in s.state && s.tasks[uid].request.op == Read
      && OneChunk(c, s.tasks[uid].request) && |s.state[uid].segments| == 1
      && Ok(MessageFor(s.state[uid].segments[0], role))
    ensures var s, r := run.states[now], run.states[now].tasks[uid].request;
      var data := MessageFor(s.state[uid].segments[0], role).value.data;
      && data.Some? && |data.value| == r.length
      && t < now && HeldAt(run, t, MirrorOf(c, r, role), uid, r.offset % c.chunk, data.value)
  {
    var s := run.states[now];
    var m, message := MirrorOf(c, s.tasks[uid].request, role), MessageFor(s.state[uid].segments[0], role);
    TicketsKnown(c, run, now, uid, role);
    var o :| Genuine(c, run, now, m, o) && o.id.uid == uid && AnswerOf(o.answer) == Some(message.value);
    OneChunkSlice(c, s.tasks[uid].request);
    OkReadHeld(c, run, now, m, o);
    t := o.t;
  }

  /** A read reply without error carries bytes that the primary or the backup held at the
      request's local offset at some moment after the request was read and before the
      reply was sent. */
  lemma ReadReplySafe(c: Config, run: Run, now: nat, i: nat)
    requires ValidConfig(c) && IsRun(c, run) && now < |run.states| && i < |run.states[now].replies|
    requires var s, reply := run.states[now], run.states[now].replies[i];
      && reply.error == 0 && reply.uid in s.tasks
      && s.tasks[reply.uid].request.op == Read && OneChunk(c, s.tasks[reply.uid].request)
    ensures var reply := run.states[now].replies[i]; var r := run.states[now].tasks[reply.uid].request;
      && |reply.payload| == r.length
      && exists t: nat, role: Role :: t < now &&
           HeldAt(run, t, MirrorOf(c, r, role), reply.uid, r.offset % c.chunk, reply.payload)
  {
    var s, reply := run.states[now], run.states[now].replies[i];
    var uid := reply.uid;
    OneChunkTicket(c, run, now, i);
    OneSegment(c, s.tasks[uid].request);
    var seg := s.state[uid].segments[0];
    assert s.state[uid].segments == [seg];
    assert Successful(Read, seg);
    var role := if (seg.primaryDone && Ok(seg.primaryMsg)) || !seg.backupDone then Primary else Backup;
    assert Select(seg) == MessageFor(seg, role);
    var t := OkMirrorHeld(c, run, now, uid, role);
    var init :| |init| == s.state[uid].totalLength && reply.payload == Assemble(init, s.state[uid].segments);
    OnePiece(init, seg, MessageFor(seg, role).value.data.value);
  }
}
