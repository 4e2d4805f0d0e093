/** What an OK reply to a request of any number of segments promises: everything, as long as
    every callback got an answer that serves for its own message. */
module WideReplies {
  import opened Types
  import opened StripeSplitter
  import opened MirrorTicket
  import opened ReadAssembly
  import opened MinionManager
  import opened MasterProxies
  import opened RaidSystem
  import opened RaidInvariant
  import opened RaidOrigin
  import opened RaidSafety
  import opened RaidReplies
  import opened RaidTickets
  import opened WideCallbacks

  /** The segment that send `k` is about. */
  function SegmentFor(c: Config, r: Request, k: nat): Segment
    requires ValidConfig(c) && k < 2 * |SegmentsOf(c, r)|
  {
    SegmentsOf(c, r)[k / 2]
  }

  /** The bytes that send `k` of a write carries. */
  function SliceFor(c: Config, r: Request, k: nat): seq<Byte>
    requires ValidConfig(c) && k < 2 * |SegmentsOf(c, r)| && BufferFits(Write, SegmentsOf(c, r), r.data)
  {
    Slice(r.data, SegmentFor(c, r, k))
  }

  /** An OK answer to send `e` says of send `k` what that one's own would: both go to the
      same place of the same minion, with the same bytes if they are written and with no
      fewer if they are read. */
  ghost predicate Serves(c: Config, r: Request, e: nat, k: nat)
    requires ValidConfig(c) && e < 2 * |SegmentsOf(c, r)| && k < 2 * |SegmentsOf(c, r)|
  {
    && SendTarget(c, r, e) == SendTarget(c, r, k)
    && SegmentFor(c, r, e).localOffset == SegmentFor(c, r, k).localOffset
    && if r.op == Write then
         BufferFits(Write, SegmentsOf(c, r), r.data) ==> SliceFor(c, r, e) == SliceFor(c, r, k)
       else
         SegmentFor(c, r, e).length >= SegmentFor(c, r, k).length
  }

  /** Step `t` passes on an answer that was given to a message of the request and serves for
      the one that the fired callback was registered for. */
  ghost predicate GotServingAnswer(c: Config, run: Run, t: nat, r: Request)
    requires ValidConfig(c) && |run.states| == |run.labels| + 1 && t < |run.labels|
    requires FiredBy(run.states[t], run.labels[t]).Some?
  {
    var (call, answer) := FiredBy(run.states[t], run.labels[t]).value;
    && SendOf(call) < 2 * |SegmentsOf(c, r)|
    && exists o :: Genuine(c, run, t, run.labels[t].minion, o) && o.id.uid == call.ticket
                   && AnswerOf(o.answer) == Some(answer)
                   && o.id.k < 2 * |SegmentsOf(c, r)| && Serves(c, r, o.id.k, SendOf(call))
  }

  /** Every callback of request `uid` fired so far got the answer to its own message, or one
      that serves as well. */
  ghost predicate Matched(c: Config, run: Run, now: nat, uid: nat, r: Request)
    requires ValidConfig(c) && |run.states| == |run.labels| + 1 && now <= |run.labels|
  {
    forall t: nat | t < now && FiredBy(run.states[t], run.labels[t]).Some?
                    && FiredBy(run.states[t], run.labels[t]).value.0.ticket == uid :: GotServingAnswer(c, run, t, r)
  }

  lemma SendGoesThere(c: Config, s: System, m: nat, id: SendId)
    requires ValidConfig(c) && ValidSend(c, s, m, id)
    ensures m == SendTarget(c, s.tasks[id.uid].request, id.k)
  {
    SendGoesToTarget(c, s.tasks[id.uid].request, id.uid, id.k, id.trailer);
    TargetIs(c, s.tasks[id.uid].request, id.uid, id.k);
  }

  /** The origin of an answer that was heard. */
  lemma HeardOrigin(c: Config, run: Run, now: nat, uid: nat, r: Request, j: nat) returns (t: nat, m: nat, o: Origin)
    requires ValidConfig(c) && IsRun(c, run) && now < |run.states| && Matched(c, run, now, uid, r)
    requires uid in run.states[now].tasks && run.states[now].tasks[uid].request == r
    requires j < |Heard(run, now, uid)|
    ensures t < now && Genuine(c, run, t, m, o) && o.id.uid == uid
    ensures uid in run.states[t].tasks && run.states[t].tasks[uid].request == r
    ensures AnswerOf(o.answer) == Heard(run, now, uid)[j].message
    ensures var k := SendOf(Callback(uid, Heard(run, now, uid)[j].segment, Heard(run, now, uid)[j].role));
      && k < 2 * |SegmentsOf(c, r)| && o.id.k < 2 * |SegmentsOf(c, r)| && Serves(c, r, o.id.k, k)
  {
    t := HeardWasTold(run, now, uid, j);
    var (call, answer) := FiredBy(run.states[t], run.labels[t]).value;
    assert GotServingAnswer(c, run, t, r);
    m := run.labels[t].minion;
    o :| Genuine(c, run, t, m, o) && o.id.uid == call.ticket && AnswerOf(o.answer) == Some(answer)
         && o.id.k < 2 * |SegmentsOf(c, r)| && Serves(c, r, o.id.k, SendOf(call));
    RequestStays(c, run, t, now, uid);
  }

  // ----- Writes --------------------------------------------------------------------------------------

  /** At step `t` the minion of send `k` stores the slice of that send. */
  ghost predicate StoredSlice(c: Config, run: Run, t: nat, uid: nat, r: Request, k: nat)
    requires ValidConfig(c) && |run.states| == |run.labels| + 1 && k < 2 * |SegmentsOf(c, r)|
  {
    var seg := SegmentFor(c, r, k);
    && seg.bufferOffset + seg.length <= |r.data|
    && StoredAt(run, t, SendTarget(c, r, k), uid, seg.localOffset, Slice(r.data, seg))
  }

  /** It has done so before state `now`. */
  ghost predicate SliceStored(c: Config, run: Run, now: nat, uid: nat, r: Request, k: nat)
    requires ValidConfig(c) && |run.states| == |run.labels| + 1 && k < 2 * |SegmentsOf(c, r)|
  {
    exists t: nat :: t < now && StoredSlice(c, run, t, uid, r, k)
  }

  lemma OkWriteStoresSlice(c: Config, run: Run, now: nat, m: nat, o: Origin)
    requires ValidConfig(c) && IsRun(c, run) && now < |run.states| && Genuine(c, run, now, m, o)
    requires run.states[now].tasks[o.id.uid].request.op == Write
    requires AnswerOf(o.answer).Some? && AnswerOf(o.answer).value.ok
    ensures StoredSlice(c, run, o.t, o.id.uid, run.states[now].tasks[o.id.uid].request, o.id.k)
    ensures BufferFits(Write, SegmentsOf(c, run.states[now].tasks[o.id.uid].request),
                       run.states[now].tasks[o.id.uid].request.data)
  {
    OkWriteStored(c, run, now, m, o);
    SendGoesThere(c, run.states[now], m, o.id);
  }

  lemma ServesStoredSlice(c: Config, run: Run, t: nat, uid: nat, r: Request, e: nat, k: nat)
    requires ValidConfig(c) && |run.states| == |run.labels| + 1 && r.op == Write
    requires e < 2 * |SegmentsOf(c, r)| && k < 2 * |SegmentsOf(c, r)| && Serves(c, r, e, k)
    requires BufferFits(Write, SegmentsOf(c, r), r.data) && StoredSlice(c, run, t, uid, r, e)
    ensures StoredSlice(c, run, t, uid, r, k)
  {
  }

  lemma HeardOkStored(c: Config, run: Run, now: nat, uid: nat, r: Request, j: nat, k: nat)
    requires ValidConfig(c) && IsRun(c, run) && now < |run.states| && Matched(c, run, now, uid, r)
    requires uid in run.states[now].tasks && run.states[now].tasks[uid].request == r
    requires r.op == Write && k < 2 * |SegmentsOf(c, r)|
    requires j < |Heard(run, now, uid)| && Ok(Heard(run, now, uid)[j].message)
    requires SendOf(Callback(uid, Heard(run, now, uid)[j].segment, Heard(run, now, uid)[j].role)) == k
    ensures SliceStored(c, run, now, uid, r, k)
  {
    var t, m, o := HeardOrigin(c, run, now, uid, r, j);
    OkWriteStoresSlice(c, run, t, m, o);
    ServesStoredSlice(c, run, o.t, uid, r, o.id.k, k);
    assert o.t < now && StoredSlice(c, run, o.t, uid, r, k);
  }

  /** A write reply without error is sent only after every primary and every backup has
      stored exactly its slice, if every callback got an answer that serves. */
  lemma WideWriteReplySafe(c: Config, run: Run, now: nat, i: nat, uid: nat, r: Request, k: nat)
    requires ValidConfig(c) && IsRun(c, run) && now < |run.states| && i < |run.states[now].replies|
    requires uid == run.states[now].replies[i].uid && run.states[now].replies[i].error == 0
    requires uid in run.states[now].tasks && run.states[now].tasks[uid].request == r
    requires r.op == Write && k < 2 * |SegmentsOf(c, r)| && Matched(c, run, now, uid, r)
    ensures SliceStored(c, run, now, uid, r, k)
  {
    ReplyOfTicket(c, run, now, i);
    WriteReplyVerdict(c, run, now, i);
    SettledWriteIsFull(c, run, now, uid);
    var role := NewCallback(uid, k).role;
    assert Answered(Heard(run, now, uid), k / 2, role);
    var j :| 0 <= j < |Heard(run, now, uid)| && IsAnswer(Heard(run, now, uid)[j], k / 2, role);
    assert Heard(run, now, uid)[j] in Heard(run, now, uid);
    HeardOkStored(c, run, now, uid, r, j, k);
  }

  // ----- Reads ----------------------------------------------------------------------------------------

  /** What a ticket has recorded for a mirror is something it heard about it. */
  lemma {:induction false} RecordedWasHeard(t: State, rs: seq<Response>, i: nat, role: Role)
    returns (j: nat)
    requires i < |t.segments| && MessageFor(t.segments[i], role) == None
    requires i < |MirrorTicket.Run(t, rs).segments| && MessageFor(MirrorTicket.Run(t, rs).segments[i], role).Some?
    ensures j < |rs| && IsAnswer(rs[j], i, role)
    ensures rs[j].message == MessageFor(MirrorTicket.Run(t, rs).segments[i], role)
  {
    j := |rs| - 1;
    var before := MirrorTicket.Run(t, rs[..j]);
    SameSegments(t, rs[..j]);
    if MessageFor(before.segments[i], role) == MessageFor(MirrorTicket.Run(t, rs).segments[i], role) {
      j := RecordedWasHeard(t, rs[..j], i, role);
    }
  }

  lemma {:induction false} SameSegments(t: State, rs: seq<Response>)
    ensures |MirrorTicket.Run(t, rs).segments| == |t.segments|
  {
    if rs != [] {
      SameSegments(t, rs[..|rs| - 1]);
    }
  }

  /** The mirror that a successful segment of a read takes its bytes from. */
  function ChosenRole(seg: SegmentState): Role
  {
    if (seg.primaryDone && Ok(seg.primaryMsg)) || !seg.backupDone then Primary else Backup
  }

  /** At step `t` the minion of send `k` holds `bytes` where that send reads. */
  ghost predicate HeldPiece(c: Config, run: Run, t: nat, uid: nat, r: Request, k: nat, bytes: seq<Byte>)
    requires ValidConfig(c) && |run.states| == |run.labels| + 1 && k < 2 * |SegmentsOf(c, r)|
  {
    HeldAt(run, t, SendTarget(c, r, k), uid, SegmentFor(c, r, k).localOffset, bytes)
  }

  ghost predicate PieceHeld(c: Config, run: Run, now: nat, uid: nat, r: Request, k: nat, bytes: seq<Byte>)
    requires ValidConfig(c) && |run.states| == |run.labels| + 1 && k < 2 * |SegmentsOf(c, r)|
  {
    exists t: nat :: t < now && HeldPiece(c, run, t, uid, r, k, bytes)
  }

  /** The primary or the backup of segment `i` held `bytes` before state `now`. */
  ghost predicate SegmentHeld(c: Config, run: Run, now: nat, uid: nat, r: Request, i: nat, bytes: seq<Byte>)
    requires ValidConfig(c) && |run.states| == |run.labels| + 1 && i < |SegmentsOf(c, r)|
  {
    exists role: Role :: PieceHeld(c, run, now, uid, r, SendOf(Callback(uid, i, role)), bytes)
  }

  lemma OkReadHoldsPiece(c: Config, run: Run, now: nat, m: nat, o: Origin)
    requires ValidConfig(c) && IsRun(c, run) && now < |run.states| && Genuine(c, run, now, m, o)
    requires run.states[now].tasks[o.id.uid].request.op == Read
    requires AnswerOf(o.answer).Some? && AnswerOf(o.answer).value.ok
    ensures var r, data := run.states[now].tasks[o.id.uid].request, AnswerOf(o.answer).value.data;
      && data.Some? && |data.value| == SegmentFor(c, r, o.id.k).length
      && HeldPiece(c, run, o.t, o.id.uid, r, o.id.k, data.value)
  {
    OkReadHeld(c, run, now, m, o);
    SendGoesThere(c, run.states[now], m, o.id);
  }

  lemma SegmentOfSend(uid: nat, i: nat, role: Role)
    ensures SendOf(Callback(uid, i, role)) / 2 == i
  {
  }

  lemma SegmentOfPiece(c: Config, run: Run, now: nat, uid: nat, r: Request, i: nat, role: Role, k: nat,
                       t: nat, bytes: seq<Byte>)
    requires ValidConfig(c) && |run.states| == |run.labels| + 1 && i < |SegmentsOf(c, r)|
    requires k == SendOf(Callback(uid, i, role)) && t < now && k < 2 * |SegmentsOf(c, r)|
    requires HeldPiece(c, run, t, uid, r, k, bytes)
    ensures SegmentHeld(c, run, now, uid, r, i, bytes)
  {
    SegmentOfSend(uid, i, role);
    assert PieceHeld(c, run, now, uid, r, SendOf(Callback(uid, i, role)), bytes);
  }

  /** What holds a piece holds every shorter one at the same place. */
  lemma HoldsShorter(run: Run, t: nat, m: nat, uid: nat, local: nat, data: seq<Byte>, size: nat)
    requires |run.states| == |run.labels| + 1 && HeldAt(run, t, m, uid, local, data) && size <= |data|
    ensures HeldAt(run, t, m, uid, local, data[..size])
  {
    var cells := run.states[t].stores[m];
    assert cells[local..local + size] == cells[local..local + |data|][..size];
  }

  lemma ServesHeldPiece(c: Config, run: Run, t: nat, uid: nat, r: Request, e: nat, k: nat, data: seq<Byte>)
    requires ValidConfig(c) && |run.states| == |run.labels| + 1 && r.op == Read
    requires e < 2 * |SegmentsOf(c, r)| && k < 2 * |SegmentsOf(c, r)| && Serves(c, r, e, k)
    requires |data| == SegmentFor(c, r, e).length && HeldPiece(c, run, t, uid, r, e, data)
    ensures |data| >= SegmentFor(c, r, k).length
    ensures HeldPiece(c, run, t, uid, r, k, data[..SegmentFor(c, r, k).length])
  {
    HoldsShorter(run, t, SendTarget(c, r, k), uid, SegmentFor(c, r, k).localOffset, data, SegmentFor(c, r, k).length);
  }

  lemma HeardOkHeld(c: Config, run: Run, now: nat, uid: nat, r: Request, j: nat, i: nat)
    requires ValidConfig(c) && IsRun(c, run) && now < |run.states| && Matched(c, run, now, uid, r)
    requires uid in run.states[now].tasks && run.states[now].tasks[uid].request == r
    requires r.op == Read && i < |SegmentsOf(c, r)|
    requires j < |Heard(run, now, uid)| && Heard(run, now, uid)[j].segment == i && Ok(Heard(run, now, uid)[j].message)
    ensures var data, size := Heard(run, now, uid)[j].message.value.data, SegmentsOf(c, r)[i].length;
      data.Some? && |data.value| >= size && SegmentHeld(c, run, now, uid, r, i, data.value[..size])
  {
    var t, m, o := HeardOrigin(c, run, now, uid, r, j);
    OkReadHoldsPiece(c, run, t, m, o);
    var data, role := AnswerOf(o.answer).value.data.value, Heard(run, now, uid)[j].role;
    var k := SendOf(Callback(uid, i, role));
    SegmentOfSend(uid, i, role);
    ServesHeldPiece(c, run, o.t, uid, r, o.id.k, k, data);
    SegmentOfPiece(c, run, now, uid, r, i, role, k, o.t, data[..SegmentsOf(c, r)[i].length]);
  }

  lemma ChosenWasHeard(c: Config, run: Run, now: nat, uid: nat, r: Request, i: nat) returns (j: nat)
    requires ValidConfig(c) && IsRun(c, run) && now < |run.states|
    requires uid in run.states[now].tasks && run.states[now].tasks[uid].request == r
    requires uid in run.states[now].state && i < |run.states[now].state[uid].segments| && i < |SegmentsOf(c, r)|
    requires Select(run.states[now].state[uid].segments[i]).Some?
    ensures j < |Heard(run, now, uid)| && Heard(run, now, uid)[j].segment == i
    ensures Heard(run, now, uid)[j].message == Select(run.states[now].state[uid].segments[i])
  {
    TicketIsHeard(c, run, now, uid);
    j := RecordedWasHeard(Fresh(r.op, r.length, SegmentsOf(c, r)), Heard(run, now, uid), i,
                          ChosenRole(run.states[now].state[uid].segments[i]));
  }

  lemma ChosenWasHeld(c: Config, run: Run, now: nat, uid: nat, r: Request, i: nat)
    requires ValidConfig(c) && IsRun(c, run) && now < |run.states| && Matched(c, run, now, uid, r)
    requires uid in run.states[now].tasks && run.states[now].tasks[uid].request == r && r.op == Read
    requires uid in run.states[now].state && i < |run.states[now].state[uid].segments| && i < |SegmentsOf(c, r)|
    requires Ok(Select(run.states[now].state[uid].segments[i]))
    ensures var data, size := Select(run.states[now].state[uid].segments[i]).value.data, SegmentsOf(c, r)[i].length;
      data.Some? && |data.value| >= size && SegmentHeld(c, run, now, uid, r, i, data.value[..size])
  {
    var j := ChosenWasHeard(c, run, now, uid, r, i);
    HeardOkHeld(c, run, now, uid, r, j, i);
  }

  lemma SegmentAlone(c: Config, t: State, r: Request, i: nat)
    requires ValidConfig(c) && TicketMatches(c, t, r) && i < |SegmentsOf(c, r)|
    ensures SoleOwner(t.segments, i)
  {
    SplitOwns(r.offset, r.length, c.chunk, c.n, t, i);
  }

  /** The ticket behind a reply without error to a read. */
  lemma OkReadTicket(c: Config, run: Run, now: nat, i: nat, uid: nat, r: Request) returns (init: seq<Byte>)
    requires ValidConfig(c) && IsRun(c, run) && now < |run.states| && i < |run.states[now].replies|
    requires uid == run.states[now].replies[i].uid && run.states[now].replies[i].error == 0
    requires uid in run.states[now].tasks && run.states[now].tasks[uid].request == r && r.op == Read
    ensures uid in run.states[now].state && TicketMatches(c, run.states[now].state[uid], r)
    ensures var t := run.states[now].state[uid];
      && |init| == r.length && Fits(t.segments, |init|)
      && run.states[now].replies[i].payload == Assemble(init, t.segments)
    ensures forall k | 0 <= k < |run.states[now].state[uid].segments| ::
      Ok(Select(run.states[now].state[uid].segments[k]))
  {
    ReplyOfTicket(c, run, now, i);
    var s := run.states[now];
    var t := s.state[uid];
    init :| |init| == t.totalLength && s.replies[i].payload == Assemble(init, t.segments);
    forall k | 0 <= k < |t.segments|
      ensures Ok(Select(t.segments[k]))
    {
      assert Successful(Read, t.segments[k]);
    }
  }

  lemma PieceSizes(c: Config, t: State, r: Request, k: nat)
    requires ValidConfig(c) && TicketMatches(c, t, r) && k < |SegmentsOf(c, r)|
    ensures k < |t.segments| && t.segments[k].bufferOffset == SegmentsOf(c, r)[k].bufferOffset
    ensures t.segments[k].length == SegmentsOf(c, r)[k].length
  {
  }

  lemma PieceOfReply(t: State, k: nat, seg: Segment, init: seq<Byte>, payload: seq<Byte>, data: seq<Byte>)
    requires SoleOwner(t.segments, k) && Fits(t.segments, |init|) && payload == Assemble(init, t.segments)
    requires t.segments[k].bufferOffset == seg.bufferOffset && t.segments[k].length == seg.length
    requires Ok(Select(t.segments[k])) && Select(t.segments[k]).value.data == Some(data) && |data| >= seg.length
    ensures seg.bufferOffset + seg.length <= |payload|
    ensures payload[seg.bufferOffset..seg.bufferOffset + seg.length] == data[..seg.length]
  {
    PieceIsSelected(t.segments, init, payload, k, seg.bufferOffset, seg.length, data);
  }

  /** A read reply without error carries, for every segment, bytes that its primary or its
      backup held between the request and the reply, if every callback got an answer
      that serves. */
  lemma WideReadReplySafe(c: Config, run: Run, now: nat, i: nat, uid: nat, r: Request, k: nat, seg: Segment)
    requires ValidConfig(c) && IsRun(c, run) && now < |run.states| && i < |run.states[now].replies|
    requires uid == run.states[now].replies[i].uid && run.states[now].replies[i].error == 0
    requires uid in run.states[now].tasks && run.states[now].tasks[uid].request == r && r.op == Read
    requires k < |SegmentsOf(c, r)| && seg == SegmentsOf(c, r)[k] && Matched(c, run, now, uid, r)
    ensures |run.states[now].replies[i].payload| == r.length
    ensures seg.bufferOffset + seg.length <= |run.states[now].replies[i].payload|
    ensures SegmentHeld(c, run, now, uid, r, k,
                        run.states[now].replies[i].payload[seg.bufferOffset..seg.bufferOffset + seg.length])
  {
    var init := OkReadTicket(c, run, now, i, uid, r);
    var t := run.states[now].state[uid];
    PieceSizes(c, t, r, k);
    ChosenWasHeld(c, run, now, uid, r, k);
    SegmentAlone(c, t, r, k);
    PieceOfReply(t, k, seg, init, run.states[now].replies[i].payload, Select(t.segments[k]).value.data.value);
  }

  /** A read that was answered without an OK primary of segment `i` was told by its backup. */
  lemma BackupTold(c: Config, run: Run, now: nat, uid: nat, i: nat) returns (t: nat)
    requires ValidConfig(c) && IsRun(c, run) && now < |run.states| && uid in run.states[now].tasks
    requires run.states[now].tasks[uid].request.op == Read && Replied(run.states[now], uid)
    requires i < |SegmentsOf(c, run.states[now].tasks[uid].request)| && !AnsweredOk(Heard(run, now, uid), i, Primary)
    ensures t < now && FiredAt(run, t, Callback(uid, i, Backup))
  {
    AnsweredExactly(c, run, now, uid);
    assert Covered(Read, Heard(run, now, uid), i);
    AnsweredIsFired(run, now, uid, i, Backup);
    t :| t < now && FiredAt(run, t, Callback(uid, i, Backup));
  }

  lemma BackupCollides(c: Config, run: Run, now: nat, uid: nat, r: Request, i: nat)
    requires ValidConfig(c) && IsRun(c, run) && now < |run.states| && uid in run.states[now].tasks
    requires run.states[now].tasks[uid].request == r && Replied(run.states[now], uid) && i + 1 < |SegmentsOf(c, r)|
    ensures SendTarget(c, r, 2 * i + 1) == SendTarget(c, r, 2 * i + 2)
    ensures NewCallback(uid, 2 * i + 1) == Callback(uid, i, Backup)
  {
    AnsweredInRange(c, run, now, uid);
    CollidingSends(c, r, 2 * i + 1, 2 * i + 2);
  }

  /** A read takes segment `i` from its backup, if it is not the last one, only if the backup's
      answer came back before the message to the primary of the next segment was sent. */
  lemma FailsOverInTime(c: Config, run: Run, now: nat, uid: nat, i: nat, u: nat)
    requires ValidConfig(c) && IsRun(c, run) && now < |run.states| && uid in run.states[now].tasks
    requires run.states[now].tasks[uid].request.op == Read && Replied(run.states[now], uid)
    requires i + 1 < |SegmentsOf(c, run.states[now].tasks[uid].request)| && SendsAt(run, u, uid, 2 * i + 2)
    requires !AnsweredOk(Heard(run, now, uid), i, Primary)
    ensures exists t: nat :: t < u && FiredAt(run, t, Callback(uid, i, Backup))
  {
    var t := BackupTold(c, run, now, uid, i);
    SameRequest(c, run, u, now, uid);
    BackupCollides(c, run, now, uid, run.states[now].tasks[uid].request, i);
    FiresBeforeCollision(c, run, t, u, uid, 2 * i + 1, 2 * i + 2);
  }

  // ----- Which mirror's answer a read reply carries ------------------------------------------------

  /** Step `u` of the run sends the reply to request `uid`. */
  ghost predicate RepliesAt(run: Run, u: nat, uid: nat)
    requires |run.states| == |run.labels| + 1
  {
    u < |run.labels| && !Replied(run.states[u], uid) && Replied(run.states[u + 1], uid)
  }

  /** Before the reply was sent the callback `call` got the OK answer `answer`. */
  ghost predicate AnsweredInTime(run: Run, u: nat, call: Callback, answer: Answer)
    requires |run.states| == |run.labels| + 1
  {
    exists t: nat :: t <= u && FiredAt(run, t, call) && FiredBy(run.states[t], run.labels[t]).value.1 == answer
                     && answer.ok
  }

  /** What the ticket had heard when it was settled. */
  lemma HeardWhenReplied(c: Config, run: Run, u: nat, now: nat, uid: nat, r: Request, count: nat)
    requires ValidConfig(c) && IsRun(c, run) && RepliesAt(run, u, uid) && u < now < |run.states|
    requires uid in run.states[now].tasks && run.states[now].tasks[uid].request == r && count == |SegmentsOf(c, r)|
    ensures Settled(r.op, Heard(run, now, uid), count)
    ensures Heard(run, now, uid)[..SettledAt(r.op, Heard(run, now, uid), count)] == Heard(run, u + 1, uid)
  {
    RepliedHasTask(c, run, u + 1, uid);
    SameRequest(c, run, u + 1, now, uid);
    AnsweredExactly(c, run, u + 1, uid);
    UnsettledBefore(c, run, u, uid, r, count);
    HeardGrows(run, u + 1, now, uid);
    ToldOnce(run.states[u], run.labels[u], uid);
    SettledFirst(r.op, Heard(run, now, uid), Heard(run, u, uid), Heard(run, u + 1, uid), count);
  }

  lemma RepliedHasTask(c: Config, run: Run, t: nat, uid: nat)
    requires ValidConfig(c) && IsRun(c, run) && t < |run.states| && Replied(run.states[t], uid)
    ensures uid in run.states[t].tasks
  {
    RunKeeps(c, run, t);
    var i :| 0 <= i < |run.states[t].replies| && run.states[t].replies[i].uid == uid;
    assert ReplyOk(run.states[t], run.states[t].replies[i]);
  }

  lemma UnsettledBefore(c: Config, run: Run, u: nat, uid: nat, r: Request, count: nat)
    requires ValidConfig(c) && IsRun(c, run) && RepliesAt(run, u, uid)
    requires uid in run.states[u + 1].tasks && run.states[u + 1].tasks[uid].request == r && count == |SegmentsOf(c, r)|
    ensures !Settled(r.op, Heard(run, u, uid), count)
  {
    AnsweredExactly(c, run, u + 1, uid);
    if uid in run.states[u].tasks {
      RunFollows(c, run, u);
      AnsweredExactly(c, run, u, uid);
      if !run.states[u].tasks[uid].phase.Sending? {
        NoTicketHearsNothing(c, run, u, uid);
        assert !Covered(r.op, Heard(run, u, uid), 0);
      }
    } else {
      NothingHeard(c, run, u, uid);
      assert !Covered(r.op, Heard(run, u, uid), 0);
    }
  }

  lemma NoTicketHearsNothing(c: Config, run: Run, t: nat, uid: nat)
    requires ValidConfig(c) && IsRun(c, run) && t < |run.states| && uid in run.states[t].tasks
    requires !run.states[t].tasks[uid].phase.Sending?
    ensures Heard(run, t, uid) == []
  {
    RunKeeps(c, run, t);
    assert TaskOk(c, run.states[t], uid);
    TicketIsHeard(c, run, t, uid);
  }

  /** The settling prefix ends where it becomes settled. */
  lemma SettledFirst(op: Op, all: seq<Response>, before: seq<Response>, after: seq<Response>, count: nat)
    requires before <= after <= all && |after| <= |before| + 1
    requires !Settled(op, before, count) && Settled(op, after, count)
    ensures Settled(op, all, count) && all[..SettledAt(op, all, count)] == after
  {
    assert all[..|all|] == all && all[..|after|] == after && all[..|before|] == before;
    SettledGrows(op, all, |after|, |all|, count);
    SettledAtSettles(op, all, count);
    var k := SettledAt(op, all, count);
    if k < |after| {
      SettledGrows(op, all, k, |before|, count);
    }
  }

  /** The callback whose answer segment `k` is read from: the primary's if that got an OK answer
      before the reply, and otherwise the backup's. */
  ghost predicate SuppliesInTime(run: Run, u: nat, uid: nat, k: nat, call: Callback, answer: Answer)
    requires |run.states| == |run.labels| + 1
  {
    && call.ticket == uid && call.segment == k && AnsweredInTime(run, u, call, answer)
    && (call.role == Backup ==> forall other :: !AnsweredInTime(run, u, Callback(uid, k, Primary), other))
  }

  /** The part of the payload that belongs to `seg` is the answer's data, as far as that goes. */
  ghost predicate CarriesPiece(payload: seq<Byte>, seg: Segment, answer: Answer)
  {
    && seg.bufferOffset + seg.length <= |payload|
    && forall x: nat | x < seg.length && x < |Bytes(Some(answer))| ::
         payload[seg.bufferOffset + x] == Bytes(Some(answer))[x]
  }

  lemma HeardPrimaryInTime(run: Run, u: nat, uid: nat, k: nat) returns (answer: Answer)
    requires |run.states| == |run.labels| + 1 && u < |run.labels| && AnsweredOk(Heard(run, u + 1, uid), k, Primary)
    ensures AnsweredInTime(run, u, Callback(uid, k, Primary), answer)
  {
    var heard := Heard(run, u + 1, uid);
    var j: nat :| j < |heard| && IsAnswer(heard[j], k, Primary) && Ok(heard[j].message);
    var t := HeardWasTold(run, u + 1, uid, j);
    answer := FiredBy(run.states[t], run.labels[t]).value.1;
    assert t <= u && FiredAt(run, t, Callback(uid, k, Primary));
  }

  lemma SupplierFired(run: Run, u: nat, uid: nat, k: nat, j: nat) returns (call: Callback, answer: Answer)
    requires |run.states| == |run.labels| + 1 && u < |run.labels| && Supplies(Heard(run, u + 1, uid), k, j)
    ensures SuppliesInTime(run, u, uid, k, call, answer)
  {
    var t := HeardWasTold(run, u + 1, uid, j);
    call, answer := Callback(uid, k, Heard(run, u + 1, uid)[j].role), FiredBy(run.states[t], run.labels[t]).value.1;
    assert t <= u && FiredAt(run, t, call);
    forall other
      ensures call.role == Backup ==> !AnsweredInTime(run, u, Callback(uid, k, Primary), other)
    {
      if AnsweredInTime(run, u, Callback(uid, k, Primary), other) {
        var heard := InTimeIsHeard(run, u, uid, k, Primary, other);
      }
    }
  }

  lemma InTimeIsHeard(run: Run, u: nat, uid: nat, k: nat, role: Role, answer: Answer) returns (j: nat)
    requires |run.states| == |run.labels| + 1 && u < |run.labels|
    requires AnsweredInTime(run, u, Callback(uid, k, role), answer)
    ensures j < |Heard(run, u + 1, uid)| && Heard(run, u + 1, uid)[j] == Response(k, role, Some(answer))
    ensures AnsweredOk(Heard(run, u + 1, uid), k, role)
  {
    var t: nat :| t <= u && FiredAt(run, t, Callback(uid, k, role))
                  && FiredBy(run.states[t], run.labels[t]).value.1 == answer && answer.ok;
    j := FiredIsHeard(run, u + 1, t, Callback(uid, k, role));
    assert IsAnswer(Heard(run, u + 1, uid)[j], k, role);
  }

  lemma FiredSupplies(run: Run, u: nat, uid: nat, k: nat, call: Callback, answer: Answer) returns (j: nat)
    requires |run.states| == |run.labels| + 1 && u < |run.labels| && SuppliesInTime(run, u, uid, k, call, answer)
    ensures Supplies(Heard(run, u + 1, uid), k, j) && Heard(run, u + 1, uid)[j].message == Some(answer)
  {
    j := InTimeIsHeard(run, u, uid, k, call.role, answer);
    if call.role == Backup && AnsweredOk(Heard(run, u + 1, uid), k, Primary) {
      var other := HeardPrimaryInTime(run, u, uid, k);
      assert false;
    }
  }

  lemma FilledIsCarried(buffer: seq<Byte>, init: seq<Byte>, seg: Segment, answer: Answer)
    requires |buffer| == |init| && FilledWith(buffer, init, seg, Bytes(Some(answer)))
    ensures CarriesPiece(buffer, seg, answer)
  {
  }

  /** The segments of a read reply without error are filled from the answers heard in time. */
  lemma ReplyIsFilled(c: Config, run: Run, u: nat, now: nat, i: nat, uid: nat, r: Request, k: nat, seen: seq<Response>)
    returns (init: seq<Byte>)
    requires ValidConfig(c) && IsRun(c, run) && RepliesAt(run, u, uid) && u < now < |run.states|
    requires i < |run.states[now].replies| && uid == run.states[now].replies[i].uid
    requires run.states[now].replies[i].error == 0 && uid in run.states[now].tasks
    requires run.states[now].tasks[uid].request == r && r.op == Read && k < |SegmentsOf(c, r)|
    requires seen == Heard(run, u + 1, uid)
    ensures |init| == |run.states[now].replies[i].payload| == r.length
    ensures exists j: nat :: Supplies(seen, k, j)
    ensures forall j: nat | Supplies(seen, k, j) ::
      FilledWith(run.states[now].replies[i].payload, init, SegmentsOf(c, r)[k], Bytes(seen[j].message))
  {
    init := OkReadTicket(c, run, now, i, uid, r);
    ReplyOfTicket(c, run, now, i);
    ReadReplyVerdict(c, run, now, i);
    HeardDistinct(c, run, now, uid);
    HeardWhenReplied(c, run, u, now, uid, r, |SegmentsOf(c, r)|);
    ReadTakesPrimaryFirst(r.offset, r.length, c.chunk, c.n, Heard(run, now, uid), init, uid, k, seen);
  }

  /** A read reply without error carries, for every segment, the answer of its primary if that
      callback got an OK one before the reply was sent, and otherwise that of its backup. */
  lemma ReplyTakesPrimaryFirst(c: Config, run: Run, u: nat, now: nat, i: nat, uid: nat, r: Request, k: nat)
    requires ValidConfig(c) && IsRun(c, run) && RepliesAt(run, u, uid) && u < now < |run.states|
    requires i < |run.states[now].replies| && uid == run.states[now].replies[i].uid
    requires run.states[now].replies[i].error == 0 && uid in run.states[now].tasks
    requires run.states[now].tasks[uid].request == r && r.op == Read && k < |SegmentsOf(c, r)|
    ensures |run.states[now].replies[i].payload| == r.length
    ensures exists call, answer :: SuppliesInTime(run, u, uid, k, call, answer)
    ensures forall call, answer | SuppliesInTime(run, u, uid, k, call, answer) ::
      CarriesPiece(run.states[now].replies[i].payload, SegmentsOf(c, r)[k], answer)
  {
    var payload, seen := run.states[now].replies[i].payload, Heard(run, u + 1, uid);
    var init := ReplyIsFilled(c, run, u, now, i, uid, r, k, seen);
    var j: nat :| Supplies(seen, k, j);
    var first, own := SupplierFired(run, u, uid, k, j);
    forall call, answer | SuppliesInTime(run, u, uid, k, call, answer)
      ensures CarriesPiece(payload, SegmentsOf(c, r)[k], answer)
    {
      var at := FiredSupplies(run, u, uid, k, call, answer);
      FilledIsCarried(payload, init, SegmentsOf(c, r)[k], answer);
    }
  }
}
