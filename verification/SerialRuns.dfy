/** Runs in which the kernel writes one chunk at a time: the minions' files follow from the
    kernel's requests alone. */
module SerialRuns {
  import opened Types
  import opened StripeSplitter
  import opened Codec
  import opened RaidSystem
  import opened RaidInvariant
  import opened RaidOrigin
  import opened RaidSafety
  import opened RaidReplies
  import opened RaidTickets
  import opened WideCallbacks
  import opened RaidProgress
  import opened WideReplies
  import opened LocalWrites
  import opened WideRequests
  import opened MirrorStore
  import opened RaidStores

  // ----- What the kernel does ----------------------------------------------------------------------

  /** Step `u` reads a write request from the kernel. */
  predicate ReadsWrite(run: Run, u: nat)
    requires u < |run.labels|
  {
    run.labels[u].NewRequest? && run.labels[u].request.op == Write
  }

  /** The UIDs of the write requests read so far, in order. */
  function WriteUids(run: Run, t: nat): seq<nat>
    requires |run.states| == |run.labels| + 1 && t <= |run.labels|
  {
    if t == 0 then []
    else WriteUids(run, t - 1) + if ReadsWrite(run, t - 1) then [run.states[t - 1].nextUid] else []
  }

  /** The write requests themselves. */
  function KernelWrites(run: Run, t: nat): (r: seq<DiskWrite>)
    requires |run.states| == |run.labels| + 1 && t <= |run.labels|
    ensures |r| == |WriteUids(run, t)|
  {
    if t == 0 then []
    else KernelWrites(run, t - 1)
         + if ReadsWrite(run, t - 1) then [DiskWrite(run.labels[t - 1].request.offset, run.labels[t - 1].request.data)]
           else []
  }

  /** The request has been answered without error. */
  ghost predicate OkReplied(s: System, uid: nat)
  {
    exists i :: 0 <= i < |s.replies| && s.replies[i].uid == uid && s.replies[i].error == 0
  }

  ghost predicate AllWritesOk(run: Run, t: nat)
    requires |run.states| == |run.labels| + 1 && t <= |run.labels|
  {
    forall i | 0 <= i < |WriteUids(run, t)| :: OkReplied(run.states[t], WriteUids(run, t)[i])
  }

  /** Every write request is inside one chunk and is read only when all earlier ones have
      been answered without error; in the end all have. */
  ghost predicate OneAtATime(c: Config, run: Run, now: nat)
    requires ValidConfig(c) && |run.states| == |run.labels| + 1 && now <= |run.labels|
  {
    && AllWritesOk(run, now)
    && forall u: nat | u < now && ReadsWrite(run, u) :: OneChunk(c, run.labels[u].request) && AllWritesOk(run, u)
  }

  /** Step `u` serves a write message. */
  predicate ServesWrite(run: Run, u: nat)
    requires u < |run.labels|
  {
    run.labels[u].Serve? && Deliver(run.labels[u].packet).Some? && Deliver(run.labels[u].packet).value.WriteSend?
  }

  /** No minion serves the same write datagram twice. */
  ghost predicate NoneTwice(run: Run, now: nat)
    requires now <= |run.labels|
  {
    forall u: nat, v: nat | u < v < now && ServesWrite(run, u) && ServesWrite(run, v) ::
      run.labels[u].minion != run.labels[v].minion || run.labels[u].packet != run.labels[v].packet
  }

  // ----- A send is made by one step, and so has one datagram ---------------------------------------

  lemma SendStepUnique(c: Config, run: Run, u: nat, v: nat, uid: nat, k: nat)
    requires ValidConfig(c) && IsRun(c, run) && SendsAt(run, u, uid, k) && SendsAt(run, v, uid, k)
    ensures u == v
  {
    if u < v {
      SentAfter(c, run, u, uid, k);
      SentGrows(c, run, u + 1, v, uid, k);
    } else if v < u {
      SentAfter(c, run, v, uid, k);
      SentGrows(c, run, v + 1, u, uid, k);
    }
  }

  /** The datagram that step `u` sends. */
  ghost predicate Emits(c: Config, run: Run, u: nat, uid: nat, k: nat, m: nat, packet: seq<Byte>)
    requires ValidConfig(c) && |run.states| == |run.labels| + 1
  {
    && SendsAt(run, u, uid, k) && CanSend(c, run.states[u], uid)
    && var out := OutgoingOf(c, run.states[u].tasks[uid].request, uid, k, run.labels[u].trailer);
       m == out.minion && packet == Encode(out.message)
  }

  lemma OnlyNew(c: Config, s: System, uid: nat, trailer: Byte, m: nat, packet: seq<Byte>)
    requires ValidConfig(c) && CanSend(c, s, uid)
    requires (m, packet) in AfterSend(c, s, uid, trailer).toMinion && (m, packet) !in s.toMinion
    ensures var out := OutgoingOf(c, s.tasks[uid].request, uid, s.tasks[uid].phase.sent, trailer);
      m == out.minion && packet == Encode(out.message)
  {
  }

  /** Every datagram in the network was sent by some step. */
  lemma {:induction false} EmittedBy(c: Config, run: Run, t: nat, m: nat, packet: seq<Byte>)
    returns (u: nat, uid: nat, k: nat)
    requires ValidConfig(c) && IsRun(c, run) && t < |run.states| && (m, packet) in run.states[t].toMinion
    ensures u < t && Emits(c, run, u, uid, k, m, packet)
  {
    if (m, packet) in run.states[t - 1].toMinion {
      u, uid, k := EmittedBy(c, run, t - 1, m, packet);
    } else {
      RunFollows(c, run, t - 1);
      StepOfRun(c, run, t - 1);
      u, uid := t - 1, run.labels[t - 1].uid;
      k := run.states[t - 1].tasks[uid].phase.sent;
      OnlyNew(c, run.states[t - 1], uid, run.labels[t - 1].trailer, m, packet);
    }
  }

  lemma ValidSendStays(c: Config, s: System, s': System, m: nat, id: SendId)
    requires ValidConfig(c) && Tasks(c, s') && ValidSend(c, s, m, id) && Sent(s', id.uid, id.k)
    requires s'.tasks[id.uid].request == s.tasks[id.uid].request
    ensures ValidSend(c, s', m, id) && MessageOf(c, s', m, id) == MessageOf(c, s, m, id)
  {
    assert TaskOk(c, s', id.uid);
  }

  lemma IsSendStays(c: Config, run: Run, u: nat, t: nat, m: nat, packet: seq<Byte>, id: SendId)
    requires ValidConfig(c) && IsRun(c, run) && u <= t < |run.states| && IsSend(c, run.states[u], m, packet, id)
    ensures IsSend(c, run.states[t], m, packet, id)
  {
    SentGrows(c, run, u, t, id.uid, id.k);
    RunKeeps(c, run, t);
    ValidSendStays(c, run.states[u], run.states[t], m, id);
  }

  lemma SentIsSend(c: Config, s: System, uid: nat, trailer: Byte, k: nat, m: nat, packet: seq<Byte>)
    requires ValidConfig(c) && Shape(c, s) && Tasks(c, s) && CanSend(c, s, uid) && k == s.tasks[uid].phase.sent
    requires var out := OutgoingOf(c, s.tasks[uid].request, uid, k, trailer);
      m == out.minion && packet == Encode(out.message)
    ensures IsSend(c, AfterSend(c, s, uid, trailer), m, packet, SendId(uid, k, trailer))
  {
    var out := OutgoingOf(c, s.tasks[uid].request, uid, k, trailer);
    assert TaskOk(c, s, uid);
    SendInRange(c, s.tasks[uid].request, uid, k, trailer);
    SendCounts(c, s, uid, trailer);
    NewIsSend(c, s, uid, trailer, out);
  }

  lemma EmittedIsSendNext(c: Config, run: Run, u: nat, uid: nat, k: nat, m: nat, packet: seq<Byte>)
    requires ValidConfig(c) && IsRun(c, run) && u < |run.labels| && Emits(c, run, u, uid, k, m, packet)
    ensures IsSend(c, run.states[u + 1], m, packet, SendId(uid, k, run.labels[u].trailer))
  {
    var s, trailer := run.states[u], run.labels[u].trailer;
    OwnSendAt(c, run, u, uid);
    SentIsSend(c, s, uid, trailer, k, m, packet);
  }

  /** Two sends of a one-chunk request that go to the same minion are the same. */
  lemma OneSendPerMinion(c: Config, s: System, m: nat, a: SendId, b: SendId)
    requires ValidConfig(c) && c.n >= 2 && ValidSend(c, s, m, a) && ValidSend(c, s, m, b) && a.uid == b.uid
    requires OneChunk(c, s.tasks[a.uid].request)
    ensures a.k == b.k
  {
    var r := s.tasks[a.uid].request;
    OneSegment(c, r);
    SendGoesThere(c, s, m, a);
    SendGoesThere(c, s, m, b);
    CollidingSends(c, r, 0, 1);
  }

  /** The datagram tells whose it is. */
  lemma PacketUid(c: Config, s: System, m: nat, packet: seq<Byte>, a: SendId, b: SendId)
    requires ValidConfig(c) && IsSend(c, s, m, packet, a) && IsSend(c, s, m, packet, b)
    ensures a.uid == b.uid
  {
    SendFitsWire(c, s, m, a);
    SendFitsWire(c, s, m, b);
    RoundTrip(MessageOf(c, s, m, a));
    RoundTrip(MessageOf(c, s, m, b));
  }

  /** A minion gets one datagram of a one-chunk request. */
  lemma OneDatagram(c: Config, run: Run, t: nat, m: nat, p: seq<Byte>, q: seq<Byte>, a: SendId, b: SendId)
    requires ValidConfig(c) && c.n >= 2 && IsRun(c, run) && t < |run.states|
    requires (m, p) in run.states[t].toMinion && (m, q) in run.states[t].toMinion
    requires IsSend(c, run.states[t], m, p, a) && IsSend(c, run.states[t], m, q, b) && a.uid == b.uid
    requires OneChunk(c, run.states[t].tasks[a.uid].request)
    ensures p == q
  {
    var u, x := StepOfPacket(c, run, t, m, p, a);
    var v, y := StepOfPacket(c, run, t, m, q, b);
    OneSendPerMinion(c, run.states[t], m, x, y);
    SendStepUnique(c, run, u, v, x.uid, x.k);
    SamePacket(c, run, u, x, m, p, q, y);
  }

  /** The step that sent a datagram, and the send it made. */
  lemma StepOfPacket(c: Config, run: Run, t: nat, m: nat, p: seq<Byte>, a: SendId) returns (u: nat, x: SendId)
    requires ValidConfig(c) && IsRun(c, run) && t < |run.states|
    requires (m, p) in run.states[t].toMinion && IsSend(c, run.states[t], m, p, a)
    ensures ValidSend(c, run.states[t], m, x) && x.uid == a.uid
    ensures SendsAt(run, u, x.uid, x.k) && Emits(c, run, u, x.uid, x.k, m, p)
  {
    var uid, k;
    u, uid, k := EmittedBy(c, run, t, m, p);
    x := SendId(uid, k, run.labels[u].trailer);
    EmittedIsSendNext(c, run, u, uid, k, m, p);
    IsSendStays(c, run, u + 1, t, m, p, x);
    PacketUid(c, run.states[t], m, p, a, x);
  }

  lemma SamePacket(c: Config, run: Run, u: nat, x: SendId, m: nat, p: seq<Byte>, q: seq<Byte>, y: SendId)
    requires ValidConfig(c) && |run.states| == |run.labels| + 1 && x.uid == y.uid && x.k == y.k
    requires Emits(c, run, u, x.uid, x.k, m, p) && Emits(c, run, u, y.uid, y.k, m, q)
    ensures p == q
  {
  }

  // ----- Which requests are writes -----------------------------------------------------------------

  lemma NewTaskIsRead(c: Config, run: Run, t: nat, uid: nat)
    requires ValidConfig(c) && IsRun(c, run) && t < |run.labels|
    requires uid in run.states[t + 1].tasks && uid !in run.states[t].tasks
    ensures run.labels[t].NewRequest? && uid == run.states[t].nextUid
    ensures run.states[t + 1].tasks[uid].request == run.labels[t].request
  {
    StepOfRun(c, run, t);
    RunKeeps(c, run, t);
    TasksGrowByReading(c, run.states[t], run.labels[t]);
  }

  lemma TasksGrowByReading(c: Config, s: System, l: Label)
    requires ValidConfig(c) && Shape(c, s) && Tasks(c, s) && Enabled(c, s, l)
    ensures Apply(c, s, l).tasks.Keys == if l.NewRequest? then s.tasks.Keys + {s.nextUid} else s.tasks.Keys
    ensures l.NewRequest? ==> Apply(c, s, l).tasks[s.nextUid].request == l.request && s.nextUid !in s.tasks
  {
    FreshUid(c, s);
    match l
    case NewRequest(r) =>
    case Announce(u) =>
    case OpenTicket(u) =>
    case Send(u, trailer) => SendReplaces(c, s, u, trailer);
    case Serve(m, packet, good, noise) => ServeTasks(s, m, packet, good, noise);
    case Wakeup(m, packet, noise) => WakeupTasks(s, m, packet, noise);
  }

  /** Write `i` of those read so far, as the drive knows it. */
  ghost predicate KnownWrite(run: Run, t: nat, i: nat, uid: nat)
    requires |run.states| == |run.labels| + 1 && t <= |run.labels|
  {
    && i < |WriteUids(run, t)| && WriteUids(run, t)[i] == uid && uid in run.states[t].tasks
    && var r := run.states[t].tasks[uid].request;
       r.op == Write && KernelWrites(run, t)[i] == DiskWrite(r.offset, r.data)
  }

  lemma WriteStaysKnown(c: Config, run: Run, t: nat, i: nat, uid: nat)
    requires ValidConfig(c) && IsRun(c, run) && t < |run.labels| && KnownWrite(run, t, i, uid)
    ensures KnownWrite(run, t + 1, i, uid)
  {
    RunRequests(c, run, t);
  }

  lemma JustRead(c: Config, run: Run, t: nat)
    requires ValidConfig(c) && IsRun(c, run) && t < |run.labels| && ReadsWrite(run, t)
    ensures KnownWrite(run, t + 1, |WriteUids(run, t)|, run.states[t].nextUid)
    ensures run.states[t].nextUid !in run.states[t].tasks
  {
    StepOfRun(c, run, t);
    RunKeeps(c, run, t);
    TasksGrowByReading(c, run.states[t], run.labels[t]);
  }

  /** Every write that the drive knows was read. */
  lemma {:induction false} WriteWasRead(c: Config, run: Run, t: nat, uid: nat) returns (i: nat)
    requires ValidConfig(c) && IsRun(c, run) && t < |run.states|
    requires uid in run.states[t].tasks && run.states[t].tasks[uid].request.op == Write
    ensures KnownWrite(run, t, i, uid)
  {
    if t > 0 && uid in run.states[t - 1].tasks {
      RunRequests(c, run, t - 1);
      i := WriteWasRead(c, run, t - 1, uid);
      WriteStaysKnown(c, run, t - 1, i, uid);
    } else {
      NewTaskIsRead(c, run, t - 1, uid);
      i := |WriteUids(run, t - 1)|;
      JustRead(c, run, t - 1);
    }
  }

  /** Every write read is known, inside one chunk, and was read when all earlier ones had
      been answered. */
  lemma {:induction false} ReadIsKnown(c: Config, run: Run, now: nat, t: nat, i: nat) returns (q: nat)
    requires ValidConfig(c) && IsRun(c, run) && t <= now <= |run.labels| && OneAtATime(c, run, now)
    requires i < |WriteUids(run, t)|
    ensures KnownWrite(run, t, i, WriteUids(run, t)[i])
    ensures OneChunk(c, run.states[t].tasks[WriteUids(run, t)[i]].request)
    ensures q < t && AllWritesOk(run, q) && |WriteUids(run, q)| == i && WriteUids(run, q) == WriteUids(run, t)[..i]
  {
    if i < |WriteUids(run, t - 1)| {
      q := ReadIsKnown(c, run, now, t - 1, i);
      WriteStaysKnown(c, run, t - 1, i, WriteUids(run, t - 1)[i]);
      RunRequests(c, run, t - 1);
    } else {
      q := t - 1;
      JustRead(c, run, t - 1);
      StepOfRun(c, run, t - 1);
    }
  }

  // ----- Each mirror serves each write once, and well ----------------------------------------------

  /** At step `u` minion `m` handles a write message of request `uid` that fits its file. */
  ghost predicate Serves(run: Run, u: nat, m: nat, uid: nat)
    requires |run.states| == |run.labels| + 1
  {
    && u < |run.labels| && EffectOf(run.states[u], run.labels[u]) != [] && run.labels[u].minion == m
    && Deliver(run.labels[u].packet).Some? && Deliver(run.labels[u].packet).value.uid == uid
  }

  lemma EffectOwner(c: Config, run: Run, u: nat, m: nat, uid: nat) returns (id: SendId)
    requires ValidConfig(c) && IsRun(c, run) && Serves(run, u, m, uid)
    ensures id.uid == uid && IsSend(c, run.states[u], m, run.labels[u].packet, id)
    ensures EffectIsSend(c, run.states[u], run.labels[u], id)
    ensures ServesWrite(run, u) && (m, run.labels[u].packet) in run.states[u].toMinion
  {
    id := EffectsAreSends(c, run, u);
    SendFitsWire(c, run.states[u], m, id);
    StepOfRun(c, run, u);
  }

  lemma {:induction false} NetworkGrowsTo(c: Config, run: Run, u: nat, t: nat)
    requires ValidConfig(c) && IsRun(c, run) && u <= t < |run.states|
    ensures run.states[u].toMinion <= run.states[t].toMinion
  {
    if u < t {
      NetworkGrowsTo(c, run, u, t - 1);
      NetworkGrows(c, run, t - 1);
    }
  }

  lemma NotServedTwice(c: Config, run: Run, now: nat, u: nat, v: nat, m: nat, uid: nat)
    requires ValidConfig(c) && c.n >= 2 && IsRun(c, run) && now <= |run.labels| && NoneTwice(run, now)
    requires u < v < now && Serves(run, u, m, uid)
    requires uid in run.states[v].tasks && OneChunk(c, run.states[v].tasks[uid].request)
    ensures !Serves(run, v, m, uid)
  {
    if Serves(run, v, m, uid) {
      var a := EffectOwner(c, run, u, m, uid);
      var b := EffectOwner(c, run, v, m, uid);
      NetworkGrowsTo(c, run, u, v);
      IsSendStays(c, run, u, v, m, run.labels[u].packet, a);
      OneDatagram(c, run, v, m, run.labels[u].packet, run.labels[v].packet, a, b);
    }
  }

  /** A minion that serves a message of a write well has an effect. */
  lemma ServesWellHasEffect(c: Config, run: Run, u: nat, m: nat, uid: nat)
    requires ValidConfig(c) && IsRun(c, run) && ServesWell(run, u, m, uid)
    requires uid in run.states[u].tasks && run.states[u].tasks[uid].request.op == Write
    ensures Serves(run, u, m, uid)
  {
    var s, l := run.states[u], run.labels[u];
    StepOfRun(c, run, u);
    RunKeeps(c, run, u);
    RequestsAreSends(c, run, u);
    assert WasSent(c, s, m, l.packet);
    var id :| IsSend(c, s, m, l.packet, id);
    RequestArrives(c, s, m, l.packet, id);
    SendFitsWire(c, s, m, id);
    SendMessage(c, s, m, id);
  }

  /** Both mirrors of a write that was answered without error have served it well. */
  lemma OkWasServed(c: Config, run: Run, t: nat, uid: nat, role: Role) returns (u: nat)
    requires ValidConfig(c) && IsRun(c, run) && t < |run.states| && OkReplied(run.states[t], uid)
    requires uid in run.states[t].tasks && run.states[t].tasks[uid].request.op == Write
    requires OneChunk(c, run.states[t].tasks[uid].request)
    ensures u < t && Serves(run, u, MirrorOf(c, run.states[t].tasks[uid].request, role), uid) && run.labels[u].good
  {
    var i: nat :| i < |run.states[t].replies| && run.states[t].replies[i].uid == uid
                  && run.states[t].replies[i].error == 0;
    WriteReplySafe(c, run, t, i);
    var r := run.states[t].tasks[uid].request;
    var m := MirrorOf(c, r, role);
    u :| u < t && StoredAt(run, u, m, uid, r.offset % c.chunk, r.data);
    RequestStays(c, run, u, t, uid);
    ServesWellHasEffect(c, run, u, m, uid);
  }

  /** What the mirror of `role` should store for the request. */
  function MirrorWrite(c: Config, r: Request, role: Role): LocalWrite
    requires ValidConfig(c)
  {
    var w := DiskWrite(r.offset, r.data);
    if role == Primary then PrimaryWrite(w, c.chunk) else BackupWrite(w, c.chunk, c.n)
  }

  /** A message of a one-chunk write that is applied well is just that. */
  lemma AppliedIsMirror(c: Config, s: System, m: nat, id: SendId, role: Role)
    requires ValidConfig(c) && ValidSend(c, s, m, id) && s.tasks[id.uid].request.op == Write
    requires OneChunk(c, s.tasks[id.uid].request) && role == NewCallback(id.uid, id.k).role
    ensures var r := s.tasks[id.uid].request;
      && m == MirrorOf(c, r, role)
      && AppliedBy(OutgoingOf(c, r, id.uid, id.k, id.trailer)) == MirrorWrite(c, r, role)
  {
    var r := s.tasks[id.uid].request;
    OneSegment(c, r);
    OneChunkSlice(c, r);
    SendMessage(c, s, m, id);
    assert (r.data + [id.trailer])[..r.length] == r.data;
  }

  lemma {:induction false} WriteUidsGrow(run: Run, t: nat, now: nat)
    requires |run.states| == |run.labels| + 1 && t <= now <= |run.labels|
    ensures WriteUids(run, t) <= WriteUids(run, now)
  {
    if t < now {
      WriteUidsGrow(run, t, now - 1);
    }
  }

  /** A write of which a message is served, and its place among those read. */
  lemma ServedWrite(c: Config, run: Run, now: nat, u: nat, m: nat, uid: nat) returns (i: nat)
    requires ValidConfig(c) && IsRun(c, run) && u < now <= |run.labels| && OneAtATime(c, run, now)
    requires Serves(run, u, m, uid)
    ensures KnownWrite(run, u, i, uid) && OneChunk(c, run.states[u].tasks[uid].request)
    ensures OkReplied(run.states[now], uid)
  {
    var id := EffectOwner(c, run, u, m, uid);
    i := WriteWasRead(c, run, u, uid);
    var q := ReadIsKnown(c, run, now, u, i);
    WriteUidsGrow(run, u, now);
    assert WriteUids(run, now)[i] == uid;
  }

  /** Every effect is that of one mirror of one write, done well. */
  lemma EffectIsMirror(c: Config, run: Run, now: nat, u: nat, m: nat, uid: nat) returns (role: Role)
    requires ValidConfig(c) && c.n >= 2 && IsRun(c, run) && u < now <= |run.labels|
    requires OneAtATime(c, run, now) && NoneTwice(run, now) && Serves(run, u, m, uid)
    ensures uid in run.states[u].tasks && m == MirrorOf(c, run.states[u].tasks[uid].request, role)
    ensures EffectOf(run.states[u], run.labels[u]) == [MirrorWrite(c, run.states[u].tasks[uid].request, role)]
  {
    var i := ServedWrite(c, run, now, u, m, uid);
    var id := EffectOwner(c, run, u, m, uid);
    role := NewCallback(uid, id.k).role;
    AppliedIsMirror(c, run.states[u], m, id, role);
    RequestStays(c, run, u, now, uid);
    ServedGood(c, run, now, u, m, uid, role);
    EffectIsOne(c, run, u);
  }

  lemma EffectIsOne(c: Config, run: Run, u: nat)
    requires ValidConfig(c) && IsRun(c, run) && u < |run.labels| && EffectOf(run.states[u], run.labels[u]) != []
    ensures EffectOf(run.states[u], run.labels[u]) == [EffectOf(run.states[u], run.labels[u])[0]]
  {
    var id := EffectsAreSends(c, run, u);
  }

  lemma ServedGood(c: Config, run: Run, now: nat, u: nat, m: nat, uid: nat, role: Role)
    requires ValidConfig(c) && c.n >= 2 && IsRun(c, run) && u < now <= |run.labels| && NoneTwice(run, now)
    requires Serves(run, u, m, uid) && OkReplied(run.states[now], uid)
    requires uid in run.states[u].tasks && run.states[u].tasks[uid].request.op == Write
    requires OneChunk(c, run.states[u].tasks[uid].request)
    requires m == MirrorOf(c, run.states[u].tasks[uid].request, role)
    ensures run.labels[u].good
  {
    RequestStays(c, run, u, now, uid);
    var v := OkWasServed(c, run, now, uid, role);
    if u < v {
      RequestStays(c, run, u, v, uid);
      NotServedTwice(c, run, now, u, v, m, uid);
    } else if v < u {
      NotServedTwice(c, run, now, v, u, m, uid);
    }
  }

  // ----- The files are the writes, one after the other ---------------------------------------------

  ghost predicate ServedBefore(run: Run, t: nat, m: nat, uid: nat)
    requires |run.states| == |run.labels| + 1
  {
    exists u: nat :: u < t && Serves(run, u, m, uid)
  }

  lemma ServedBeforeNext(run: Run, t: nat, m: nat, uid: nat)
    requires |run.states| == |run.labels| + 1
    ensures ServedBefore(run, t + 1, m, uid) <==> ServedBefore(run, t, m, uid) || Serves(run, t, m, uid)
  {
    if ServedBefore(run, t + 1, m, uid) {
      var u: nat :| u < t + 1 && Serves(run, u, m, uid);
    }
  }

  /** What has been served of a write: of its two mirrors `p` and `b`, in either order. */
  predicate TailOk(tail: seq<LocalWrite>, p: LocalWrite, b: LocalWrite, primary: bool, backup: bool)
  {
    if primary && backup then tail == [p, b] || tail == [b, p]
    else if primary then tail == [p]
    else if backup then tail == [b]
    else tail == []
  }

  /** The last write read, of which `tail` has been served. */
  ghost predicate LastServed(c: Config, run: Run, t: nat, uid: nat, tail: seq<LocalWrite>)
    requires ValidConfig(c) && |run.states| == |run.labels| + 1 && t < |run.states|
  {
    && uid in run.states[t].tasks
    && var r := run.states[t].tasks[uid].request;
       TailOk(tail, MirrorWrite(c, r, Primary), MirrorWrite(c, r, Backup),
              ServedBefore(run, t, MirrorOf(c, r, Primary), uid), ServedBefore(run, t, MirrorOf(c, r, Backup), uid))
  }

  /** All writes but the last are served one after the other in `head`, the last as far as
      `tail`. */
  ghost predicate SplitOk(c: Config, run: Run, t: nat, head: seq<LocalWrite>, tail: seq<LocalWrite>)
    requires ValidConfig(c) && |run.states| == |run.labels| + 1 && t < |run.states|
  {
    && ServedWrites(run, t) == head + tail
    && var count := |WriteUids(run, t)|;
       if count == 0 then head == [] && tail == []
       else Serial(KernelWrites(run, t)[..count - 1], head, c.chunk, c.n)
            && LastServed(c, run, t, WriteUids(run, t)[count - 1], tail)
  }

  lemma SerialSnoc(ws: seq<DiskWrite>, head: seq<LocalWrite>, tail: seq<LocalWrite>, chunk: nat, n: nat)
    requires chunk > 0 && n > 0 && ws != [] && Serial(ws[..|ws| - 1], head, chunk, n)
    requires var p, b := PrimaryWrite(ws[|ws| - 1], chunk), BackupWrite(ws[|ws| - 1], chunk, n);
      tail == [p, b] || tail == [b, p]
    ensures Serial(ws, head + tail, chunk, n)
  {
    assert (head + tail)[..|head|] == head && (head + tail)[|head|..] == tail;
  }

  /** Once the last write has been answered, all writes have been served one after the other. */
  lemma OkIsSerial(c: Config, run: Run, now: nat, t: nat, head: seq<LocalWrite>, tail: seq<LocalWrite>)
    requires ValidConfig(c) && IsRun(c, run) && t <= now <= |run.labels| && OneAtATime(c, run, now)
    requires SplitOk(c, run, t, head, tail) && AllWritesOk(run, t)
    ensures Serial(KernelWrites(run, t), ServedWrites(run, t), c.chunk, c.n)
  {
    var count := |WriteUids(run, t)|;
    if count == 0 {
      assert head + tail == [];
    } else {
      var uid := WriteUids(run, t)[count - 1];
      var q := ReadIsKnown(c, run, now, t, count - 1);
      var u := OkWasServed(c, run, t, uid, Primary);
      var v := OkWasServed(c, run, t, uid, Backup);
      var r := run.states[t].tasks[uid].request;
      assert ServedBefore(run, t, MirrorOf(c, r, Primary), uid);
      assert ServedBefore(run, t, MirrorOf(c, r, Backup), uid);
      SerialSnoc(KernelWrites(run, t), head, tail, c.chunk, c.n);
    }
  }

  lemma FreshNotServed(c: Config, run: Run, t: nat, m: nat, uid: nat)
    requires ValidConfig(c) && IsRun(c, run) && t < |run.labels| && uid !in run.states[t].tasks
    requires EffectOf(run.states[t], run.labels[t]) == []
    ensures !ServedBefore(run, t + 1, m, uid)
  {
    if ServedBefore(run, t + 1, m, uid) {
      var u: nat :| u < t + 1 && Serves(run, u, m, uid);
      var id := EffectOwner(c, run, u, m, uid);
      RequestStays(c, run, u, t, uid);
    }
  }

  /** The kernel's next write: all earlier ones are complete, and nothing of it is served. */
  lemma SplitRead(c: Config, run: Run, now: nat, t: nat, head: seq<LocalWrite>, tail: seq<LocalWrite>)
    requires ValidConfig(c) && IsRun(c, run) && t < now <= |run.labels| && OneAtATime(c, run, now)
    requires SplitOk(c, run, t, head, tail) && ReadsWrite(run, t)
    ensures SplitOk(c, run, t + 1, head + tail, [])
  {
    OkIsSerial(c, run, now, t, head, tail);
    JustRead(c, run, t);
    var uid := run.states[t].nextUid;
    var r := run.states[t + 1].tasks[uid].request;
    FreshNotServed(c, run, t, MirrorOf(c, r, Primary), uid);
    FreshNotServed(c, run, t, MirrorOf(c, r, Backup), uid);
    assert ServedWrites(run, t + 1) == ServedWrites(run, t) + [];
    assert KernelWrites(run, t + 1)[..|WriteUids(run, t)|] == KernelWrites(run, t);
  }

  /** A step that serves no write. */
  lemma SplitQuiet(c: Config, run: Run, t: nat, head: seq<LocalWrite>, tail: seq<LocalWrite>)
    requires ValidConfig(c) && IsRun(c, run) && t < |run.labels| && SplitOk(c, run, t, head, tail)
    requires !ReadsWrite(run, t) && EffectOf(run.states[t], run.labels[t]) == []
    ensures SplitOk(c, run, t + 1, head, tail)
  {
    assert ServedWrites(run, t + 1) == ServedWrites(run, t);
    assert WriteUids(run, t + 1) == WriteUids(run, t) && KernelWrites(run, t + 1) == KernelWrites(run, t);
    var count := |WriteUids(run, t)|;
    if count > 0 {
      var uid := WriteUids(run, t)[count - 1];
      RunRequests(c, run, t);
      var r := run.states[t].tasks[uid].request;
      ServedBeforeNext(run, t, MirrorOf(c, r, Primary), uid);
      ServedBeforeNext(run, t, MirrorOf(c, r, Backup), uid);
    }
  }

  /** Only the last write read is served: the earlier ones have been already. */
  lemma ServesLast(c: Config, run: Run, now: nat, t: nat, m: nat, uid: nat)
    requires ValidConfig(c) && c.n >= 2 && IsRun(c, run) && t < now <= |run.labels|
    requires OneAtATime(c, run, now) && NoneTwice(run, now) && Serves(run, t, m, uid)
    ensures WriteUids(run, t) != [] && uid == WriteUids(run, t)[|WriteUids(run, t)| - 1]
  {
    var i := ServedWrite(c, run, now, t, m, uid);
    if i + 1 < |WriteUids(run, t)| {
      var role := EffectIsMirror(c, run, now, t, m, uid);
      var q := ReadIsKnown(c, run, now, t, i + 1);
      assert WriteUids(run, q)[i] == uid;
      var q' := ReadIsKnown(c, run, now, q, i);
      RequestStays(c, run, q, t, uid);
      var u := OkWasServed(c, run, q, uid, role);
      NotServedTwice(c, run, now, u, t, m, uid);
    }
  }

  lemma MirrorsDiffer(c: Config, r: Request)
    requires ValidConfig(c) && c.n >= 2 && OneChunk(c, r)
    ensures MirrorOf(c, r, Primary) != MirrorOf(c, r, Backup)
  {
    OneSegment(c, r);
    NextMinion(MirrorOf(c, r, Primary), c.n);
  }

  lemma ServedFirstTime(c: Config, run: Run, now: nat, t: nat, m: nat, uid: nat)
    requires ValidConfig(c) && c.n >= 2 && IsRun(c, run) && t < now <= |run.labels| && NoneTwice(run, now)
    requires Serves(run, t, m, uid) && uid in run.states[t].tasks && OneChunk(c, run.states[t].tasks[uid].request)
    ensures !ServedBefore(run, t, m, uid)
  {
    if ServedBefore(run, t, m, uid) {
      var u: nat :| u < t && Serves(run, u, m, uid);
      NotServedTwice(c, run, now, u, t, m, uid);
    }
  }

  lemma LastServedMore(c: Config, run: Run, now: nat, t: nat, m: nat, uid: nat, tail: seq<LocalWrite>)
    requires ValidConfig(c) && c.n >= 2 && IsRun(c, run) && t < now <= |run.labels|
    requires OneAtATime(c, run, now) && NoneTwice(run, now) && Serves(run, t, m, uid)
    requires LastServed(c, run, t, uid, tail)
    ensures LastServed(c, run, t + 1, uid, tail + EffectOf(run.states[t], run.labels[t]))
  {
    var i := ServedWrite(c, run, now, t, m, uid);
    var role := EffectIsMirror(c, run, now, t, m, uid);
    var r := run.states[t].tasks[uid].request;
    RunRequests(c, run, t);
    MirrorsDiffer(c, r);
    ServedFirstTime(c, run, now, t, m, uid);
    ServedBeforeNext(run, t, MirrorOf(c, r, Primary), uid);
    ServedBeforeNext(run, t, MirrorOf(c, r, Backup), uid);
  }

  lemma SplitFrom(c: Config, run: Run, t: nat, head: seq<LocalWrite>, tail: seq<LocalWrite>)
    requires ValidConfig(c) && |run.states| == |run.labels| + 1 && t < |run.states| && WriteUids(run, t) != []
    requires ServedWrites(run, t) == head + tail
    requires Serial(KernelWrites(run, t)[..|WriteUids(run, t)| - 1], head, c.chunk, c.n)
    requires LastServed(c, run, t, WriteUids(run, t)[|WriteUids(run, t)| - 1], tail)
    ensures SplitOk(c, run, t, head, tail)
  {
  }

  lemma SplitParts(c: Config, run: Run, t: nat, head: seq<LocalWrite>, tail: seq<LocalWrite>)
    requires ValidConfig(c) && |run.states| == |run.labels| + 1 && t < |run.states| && WriteUids(run, t) != []
    requires SplitOk(c, run, t, head, tail)
    ensures ServedWrites(run, t) == head + tail
    ensures Serial(KernelWrites(run, t)[..|WriteUids(run, t)| - 1], head, c.chunk, c.n)
    ensures LastServed(c, run, t, WriteUids(run, t)[|WriteUids(run, t)| - 1], tail)
  {
  }

  lemma ServingReadsNothing(run: Run, t: nat)
    requires |run.states| == |run.labels| + 1 && t < |run.labels| && run.labels[t].Serve?
    ensures WriteUids(run, t + 1) == WriteUids(run, t) && KernelWrites(run, t + 1) == KernelWrites(run, t)
    ensures ServedWrites(run, t + 1) == ServedWrites(run, t) + EffectOf(run.states[t], run.labels[t])
  {
  }

  lemma MoreServed(a: seq<LocalWrite>, b: seq<LocalWrite>, d: seq<LocalWrite>)
    ensures (a + b) + d == a + (b + d)
  {
  }

  lemma OwnerOf(c: Config, run: Run, t: nat) returns (uid: nat)
    requires ValidConfig(c) && IsRun(c, run) && t < |run.labels| && EffectOf(run.states[t], run.labels[t]) != []
    ensures Serves(run, t, run.labels[t].minion, uid) && run.labels[t].Serve?
  {
    var id := EffectsAreSends(c, run, t);
    SendFitsWire(c, run.states[t], run.labels[t].minion, id);
    uid := id.uid;
  }

  /** What the step adds to the writes served, and to the last write read. */
  lemma ServeStep(c: Config, run: Run, now: nat, t: nat, uid: nat, tail: seq<LocalWrite>)
    returns (effect: seq<LocalWrite>)
    requires ValidConfig(c) && c.n >= 2 && IsRun(c, run) && t < now <= |run.labels|
    requires OneAtATime(c, run, now) && NoneTwice(run, now) && run.labels[t].Serve?
    requires Serves(run, t, run.labels[t].minion, uid) && LastServed(c, run, t, uid, tail)
    ensures ServedWrites(run, t + 1) == ServedWrites(run, t) + effect
    ensures LastServed(c, run, t + 1, uid, tail + effect)
  {
    effect := EffectOf(run.states[t], run.labels[t]);
    LastServedMore(c, run, now, t, run.labels[t].minion, uid, tail);
  }

  lemma ServeLast(c: Config, run: Run, now: nat, t: nat) returns (uid: nat)
    requires ValidConfig(c) && c.n >= 2 && IsRun(c, run) && t < now <= |run.labels|
    requires OneAtATime(c, run, now) && NoneTwice(run, now) && EffectOf(run.states[t], run.labels[t]) != []
    ensures run.labels[t].Serve? && Serves(run, t, run.labels[t].minion, uid)
    ensures WriteUids(run, t) != [] && uid == WriteUids(run, t)[|WriteUids(run, t)| - 1]
  {
    uid := OwnerOf(c, run, t);
    ServesLast(c, run, now, t, run.labels[t].minion, uid);
  }

  lemma SplitMore(c: Config, run: Run, t: nat, head: seq<LocalWrite>, tail: seq<LocalWrite>, effect: seq<LocalWrite>)
    requires ValidConfig(c) && |run.states| == |run.labels| + 1 && t < |run.labels| && WriteUids(run, t) != []
    requires ServedWrites(run, t + 1) == (head + tail) + effect
    requires WriteUids(run, t + 1) == WriteUids(run, t) && KernelWrites(run, t + 1) == KernelWrites(run, t)
    requires Serial(KernelWrites(run, t)[..|WriteUids(run, t)| - 1], head, c.chunk, c.n)
    requires LastServed(c, run, t + 1, WriteUids(run, t)[|WriteUids(run, t)| - 1], tail + effect)
    ensures SplitOk(c, run, t + 1, head, tail + effect)
  {
    MoreServed(head, tail, effect);
    SplitFrom(c, run, t + 1, head, tail + effect);
  }

  /** A step that serves a write. */
  lemma SplitServe(c: Config, run: Run, now: nat, t: nat, head: seq<LocalWrite>, before: seq<LocalWrite>)
    returns (tail: seq<LocalWrite>)
    requires ValidConfig(c) && c.n >= 2 && IsRun(c, run) && t < now <= |run.labels|
    requires OneAtATime(c, run, now) && NoneTwice(run, now) && SplitOk(c, run, t, head, before)
    requires EffectOf(run.states[t], run.labels[t]) != []
    ensures SplitOk(c, run, t + 1, head, tail)
  {
    var uid := ServeLast(c, run, now, t);
    SplitParts(c, run, t, head, before);
    var effect := ServeStep(c, run, now, t, uid, before);
    ServingReadsNothing(run, t);
    SplitMore(c, run, t, head, before, effect);
    tail := before + effect;
  }

  lemma SplitNext(c: Config, run: Run, now: nat, t: nat, before: seq<LocalWrite>, after: seq<LocalWrite>)
    returns (head: seq<LocalWrite>, tail: seq<LocalWrite>)
    requires ValidConfig(c) && c.n >= 2 && IsRun(c, run) && t < now <= |run.labels|
    requires OneAtATime(c, run, now) && NoneTwice(run, now) && SplitOk(c, run, t, before, after)
    ensures SplitOk(c, run, t + 1, head, tail)
  {
    head, tail := before, after;
    if EffectOf(run.states[t], run.labels[t]) != [] {
      tail := SplitServe(c, run, now, t, head, after);
    } else if ReadsWrite(run, t) {
      SplitRead(c, run, now, t, head, tail);
      head, tail := before + after, [];
    } else {
      SplitQuiet(c, run, t, head, tail);
    }
  }

  lemma SerialStart(c: Config, run: Run)
    requires ValidConfig(c) && IsRun(c, run)
    ensures SerialSoFar(c, run, 0)
  {
    assert SplitOk(c, run, 0, [], []);
  }

  ghost predicate SerialSoFar(c: Config, run: Run, t: nat)
    requires ValidConfig(c) && |run.states| == |run.labels| + 1 && t < |run.states|
  {
    exists head, tail :: SplitOk(c, run, t, head, tail)
  }

  /** The kernel writes one chunk at a time, and no write datagram is served twice. */
  ghost predicate Orderly(c: Config, run: Run, now: nat)
    requires ValidConfig(c)
  {
    c.n >= 2 && IsRun(c, run) && now <= |run.labels| && OneAtATime(c, run, now) && NoneTwice(run, now)
  }

  lemma SerialNext(c: Config, run: Run, now: nat, t: nat)
    requires ValidConfig(c) && Orderly(c, run, now) && t < now && SerialSoFar(c, run, t)
    ensures SerialSoFar(c, run, t + 1)
  {
    var before, after :| SplitOk(c, run, t, before, after);
    var head, tail := SplitNext(c, run, now, t, before, after);
  }

  lemma SerialHandedOn(c: Config, run: Run, now: nat)
    requires ValidConfig(c) && Orderly(c, run, now)
    ensures SerialSoFar(c, run, 0)
    ensures forall t: nat | t < now && SerialSoFar(c, run, t) :: SerialSoFar(c, run, t + 1)
  {
    SerialStart(c, run);
    forall t: nat | t < now && SerialSoFar(c, run, t)
      ensures SerialSoFar(c, run, t + 1)
    {
      SerialNext(c, run, now, t);
    }
  }

  lemma {:induction false} SerialUpTo(c: Config, run: Run, now: nat, t: nat)
    requires ValidConfig(c) && |run.states| == |run.labels| + 1 && t <= now < |run.states|
    requires SerialSoFar(c, run, 0)
    requires forall u: nat | u < now && SerialSoFar(c, run, u) :: SerialSoFar(c, run, u + 1)
    ensures SerialSoFar(c, run, t)
  {
    if t > 0 {
      SerialUpTo(c, run, now, t - 1);
      assert SerialSoFar(c, run, (t - 1) + 1);
    }
  }

  /** The writes served so far are the kernel's writes, one after the other. */
  lemma SerialSplit(c: Config, run: Run, now: nat, t: nat)
    requires ValidConfig(c) && Orderly(c, run, now) && t <= now
    ensures SerialSoFar(c, run, t)
  {
    SerialHandedOn(c, run, now);
    SerialUpTo(c, run, now, t);
  }

  /** If the kernel writes inside one chunk at a time and reads no error, and no minion
      serves a write datagram twice, then each mirror serves each write exactly once, well,
      and before the next write is read. */
  lemma KernelWritesAreSerial(c: Config, run: Run, now: nat)
    requires ValidConfig(c) && c.n >= 2 && IsRun(c, run) && now <= |run.labels|
    requires OneAtATime(c, run, now) && NoneTwice(run, now)
    ensures AllInOneChunk(KernelWrites(run, now), c.chunk, c.n)
    ensures Serial(KernelWrites(run, now), ServedWrites(run, now), c.chunk, c.n)
  {
    SerialSplit(c, run, now, now);
    var head, tail :| SplitOk(c, run, now, head, tail);
    OkIsSerial(c, run, now, now, head, tail);
    forall i: nat | i < |KernelWrites(run, now)|
      ensures InOneChunk(KernelWrites(run, now)[i], c.chunk, c.n)
    {
      KernelWriteInOneChunk(c, run, now, i);
    }
  }

  lemma KernelWriteInOneChunk(c: Config, run: Run, now: nat, i: nat)
    requires ValidConfig(c) && IsRun(c, run) && now <= |run.labels| && OneAtATime(c, run, now)
    requires i < |KernelWrites(run, now)|
    ensures InOneChunk(KernelWrites(run, now)[i], c.chunk, c.n)
  {
    var q := ReadIsKnown(c, run, now, now, i);
    var uid := WriteUids(run, now)[i];
    RunKeeps(c, run, now);
    assert TaskOk(c, run.states[now], uid);
    OneSegment(c, run.states[now].tasks[uid].request);
  }

  /** Under the same conditions byte `l` of minion `m` is the latest byte that the kernel
      wrote to either of its two addresses, whatever reads went on in between. */
  lemma KernelRunStores(c: Config, run: Run, now: nat, m: nat, l: nat, a: nat, b: nat)
    requires ValidConfig(c) && c.n >= 2 && IsRun(c, run) && now <= |run.labels|
    requires OneAtATime(c, run, now) && NoneTwice(run, now) && Aliases(m, l, a, b, c.chunk, c.n)
    ensures Cell(run.states[now].stores, m, l, Latest(KernelWrites(run, now), a, b))
  {
    KernelWritesAreSerial(c, run, now);
    SerialRunStores(c, run, now, KernelWrites(run, now), m, l, a, b);
  }
}
