/** A write that is answered without error although a slice of it was not stored, and so exactly
    which writes are told the truth whatever the schedule. */
module WrongWrites {
  import opened Types
  import opened StripeSplitter
  import opened Codec
  import opened MirrorTicket
  import opened Minion
  import opened MinionManager
  import opened MasterProxies
  import opened RaidSystem
  import opened RaidInvariant
  import opened RaidOrigin
  import opened RaidSafety
  import opened RaidReplies
  import opened RaidTickets
  import opened WideCallbacks
  import opened WideReplies
  import opened WideTruth
  import opened RaidProgress
  import opened RaidExamples
  import opened Rounds
  import opened WideRequests

  lemma StillMissed(c: Config, run: Run, longer: Run, uid: nat, r: Request, k: nat)
    requires ValidConfig(c) && |run.states| == |run.labels| + 1 && Extends(c, run, longer)
    requires |longer.labels| == |run.labels| + 1 && k < 2 * |SegmentsOf(c, r)|
    requires !SliceStored(c, run, |run.labels|, uid, r, k) && !StoredSlice(c, longer, |run.labels|, uid, r, k)
    ensures !SliceStored(c, longer, |longer.labels|, uid, r, k)
  {
    PrefixOfRun(c, run, longer);
    forall t: nat | t < |longer.labels|
      ensures !StoredSlice(c, longer, t, uid, r, k)
    {
      if t < |run.labels| {
        assert StoredSlice(c, longer, t, uid, r, k) <==> StoredSlice(c, run, t, uid, r, k);
      }
    }
  }

  /** A step in which the minion of send `k` serves nothing does not store its slice. */
  lemma OtherStepMisses(c: Config, run: Run, longer: Run, l: Label, uid: nat, r: Request, k: nat)
    requires ValidConfig(c) && |run.states| == |run.labels| + 1 && Extends(c, run, longer)
    requires longer.labels == run.labels + [l] && k < 2 * |SegmentsOf(c, r)|
    requires !l.Serve? || l.minion != SendTarget(c, r, k)
    requires !SliceStored(c, run, |run.labels|, uid, r, k)
    ensures !SliceStored(c, longer, |longer.labels|, uid, r, k)
  {
    StillMissed(c, run, longer, uid, r, k);
  }

  /** The first `k` messages of the write are out, their callbacks have got OK answers, and the
      slice of send `skip` is not stored. */
  ghost predicate Answering(c: Config, run: Run, uid: nat, r: Request, k: nat, skip: nat)
    requires ValidConfig(c)
  {
    && IsRun(c, run) && uid in Last(run).tasks && Last(run).tasks[uid] == Task(r, Sending(k))
    && (forall e: nat | e < k :: FiredOk(run, uid, e))
    && skip < 2 * |SegmentsOf(c, r)| && !SliceStored(c, run, |run.labels|, uid, r, skip)
  }

  lemma AllStillFired(c: Config, run: Run, longer: Run, uid: nat, k: nat)
    requires ValidConfig(c) && IsRun(c, run) && Extends(c, run, longer) && FiredOk(longer, uid, k)
    requires forall e: nat | e < k :: FiredOk(run, uid, e)
    ensures forall e: nat | e < k + 1 :: FiredOk(longer, uid, e)
  {
    forall e: nat | e < k + 1
      ensures FiredOk(longer, uid, e)
    {
      if e < k {
        FiredOkStays(c, run, longer, uid, e);
      }
    }
  }

  lemma RoundDone(c: Config, run: Run, longer: Run, uid: nat, r: Request, k: nat, skip: nat)
    requires ValidConfig(c) && Answering(c, run, uid, r, k, skip) && Extends(c, run, longer)
    requires FiredOk(longer, uid, k) && Last(longer).tasks == Last(run).tasks[uid := Task(r, Sending(k + 1))]
    requires !SliceStored(c, longer, |longer.labels|, uid, r, skip)
    ensures Answering(c, longer, uid, r, k + 1, skip)
  {
    AllStillFired(c, run, longer, uid, k);
  }

  /** A round at another minion. */
  lemma OtherRound(c: Config, run: Run, uid: nat, r: Request, k: nat, skip: nat) returns (longer: Run)
    requires ValidConfig(c) && Proper(c, r) && Answering(c, run, uid, r, k, skip) && k < 2 * |SegmentsOf(c, r)|
    requires SendTarget(c, r, k) != SendTarget(c, r, skip)
    ensures Answering(c, longer, uid, r, k + 1, skip) && |Last(longer).stores| == |Last(run).stores|
    ensures SendTarget(c, r, skip) < |Last(run).stores| ==>
      Last(longer).stores[SendTarget(c, r, skip)] == Last(run).stores[SendTarget(c, r, skip)]
  {
    CanSendNext(c, Last(run), uid, r, k);
    var sent, served, packet, id, answer := SendAndServe(c, run, uid, r, k, SendTarget(c, r, k));
    longer := AnswerComes(c, served, uid, k, SendTarget(c, r, k), answer);
    OtherStepMisses(c, run, sent, Send(uid, 0), uid, r, skip);
    OtherStepMisses(c, sent, served, Serve(SendTarget(c, r, k), packet, true, []), uid, r, skip);
    OtherStepMisses(c, served, longer, Label.Wakeup(SendTarget(c, r, k), Encode(answer), []), uid, r, skip);
    ExtendsTwice(c, run, sent, served);
    ExtendsTwice(c, run, served, longer);
    RoundDone(c, run, longer, uid, r, k, skip);
  }

  lemma LaidByOverlay(cells: seq<Byte>, at: nat, data: seq<Byte>, l: nat)
    requires at + |data| <= |cells| && l < |cells|
    ensures Overlay(cells, at, data)[l] == Laid(at, data, l, cells[l])
  {
  }

  /** What serving the backup of segment `j - 1` leaves at a telling cell. */
  lemma ServedBefore(c: Config, s: System, m: nat, id: SendId, r: Request, j: nat, l: nat, b: Byte, cells: seq<Byte>)
    requires ValidConfig(c) && ValidSend(c, s, m, id) && s.tasks[id.uid].request == r && r.op == Write
    requires Tells(c, r, j, l, b) && id.k == 2 * j - 1 && |cells| == c.chunk && cells[l] == b
    ensures CellsAfter(cells, MessageOf(c, s, m, id), true, [])[l]
         == Laid(SegmentsOf(c, r)[j - 1].localOffset, Slice(r.data, SegmentsOf(c, r)[j - 1]), l, b)
  {
    var seg := SegmentsOf(c, r)[j - 1];
    assert id.k / 2 == j - 1;
    SendMessage(c, s, m, id);
    SendFitsWire(c, s, m, id);
    assert (Slice(r.data, seg) + [id.trailer])[..seg.length] == Slice(r.data, seg);
    LaidByOverlay(cells, seg.localOffset, Slice(r.data, seg), l);
  }

  lemma NotItsSlice(c: Config, run: Run, t: nat, uid: nat, r: Request, j: nat, l: nat, b: Byte, m: nat)
    requires ValidConfig(c) && |run.states| == |run.labels| + 1 && t < |run.labels|
    requires Tells(c, r, j, l, b) && m == SendTarget(c, r, 2 * j) && Cell(run.states[t].stores, m, l, b)
    requires Cell(run.states[t + 1].stores, m, l,
                  Laid(SegmentsOf(c, r)[j - 1].localOffset, Slice(r.data, SegmentsOf(c, r)[j - 1]), l, b))
    ensures !StoredSlice(c, run, t, uid, r, 2 * j)
  {
    var seg := SegmentsOf(c, r)[j];
    if StoredSlice(c, run, t, uid, r, 2 * j) {
      assert SegmentFor(c, r, 2 * j) == seg;
      LaidByOverlay(run.states[t].stores[m], seg.localOffset, Slice(r.data, seg), l);
    }
  }

  lemma LaidMisses(c: Config, sent: Run, served: Run, uid: nat, r: Request, j: nat, l: nat, b: Byte, m: nat,
                   after: seq<Byte>)
    requires ValidConfig(c) && |sent.states| == |sent.labels| + 1
    requires Extends(c, sent, served) && |served.labels| == |sent.labels| + 1
    requires Tells(c, r, j, l, b) && m == SendTarget(c, r, 2 * j) && Cell(Last(sent).stores, m, l, b)
    requires Last(served).stores == Last(sent).stores[m := after] && l < |after|
    requires after[l] == Laid(SegmentsOf(c, r)[j - 1].localOffset, Slice(r.data, SegmentsOf(c, r)[j - 1]), l, b)
    requires !SliceStored(c, sent, |sent.labels|, uid, r, 2 * j)
    ensures !SliceStored(c, served, |served.labels|, uid, r, 2 * j)
  {
    PrefixOfRun(c, sent, served);
    NotItsSlice(c, served, |sent.labels|, uid, r, j, l, b, m);
    StillMissed(c, sent, served, uid, r, 2 * j);
  }

  lemma ServeMisses(c: Config, sent: Run, served: Run, uid: nat, r: Request, j: nat, l: nat, b: Byte, m: nat, id: SendId)
    requires ValidConfig(c) && IsRun(c, sent) && Extends(c, sent, served) && |served.labels| == |sent.labels| + 1
    requires r.op == Write && Tells(c, r, j, l, b) && m == SendTarget(c, r, 2 * j) && Cell(Last(sent).stores, m, l, b)
    requires ValidSend(c, Last(sent), m, id) && Last(sent).tasks[id.uid].request == r && id.k == 2 * j - 1
    requires Last(served).stores
          == Last(sent).stores[m := CellsAfter(Last(sent).stores[m], MessageOf(c, Last(sent), m, id), true, [])]
    requires !SliceStored(c, sent, |sent.labels|, uid, r, 2 * j)
    ensures !SliceStored(c, served, |served.labels|, uid, r, 2 * j)
  {
    RunKeeps(c, sent, |sent.labels|);
    ServedBefore(c, Last(sent), m, id, r, j, l, b, Last(sent).stores[m]);
    LaidMisses(c, sent, served, uid, r, j, l, b, m,
               CellsAfter(Last(sent).stores[m], MessageOf(c, Last(sent), m, id), true, []));
  }

  /** The round of the backup of segment `j - 1`, whose minion holds `b` at the telling cell. */
  lemma BackupRound(c: Config, run: Run, uid: nat, r: Request, j: nat, l: nat, b: Byte, m: nat, k: nat, skip: nat)
    returns (longer: Run, answer: Message)
    requires ValidConfig(c) && Proper(c, r) && r.op == Write && Tells(c, r, j, l, b)
    requires k == 2 * j - 1 && skip == k + 1 && k < 2 * |SegmentsOf(c, r)|
    requires Answering(c, run, uid, r, k, skip) && Cell(Last(run).stores, m, l, b)
    requires m == SendTarget(c, r, k) == SendTarget(c, r, skip)
    ensures Answering(c, longer, uid, r, skip, skip)
    ensures (m, Encode(answer)) in Last(longer).toMaster && Deliver(Encode(answer)) == Some(answer)
    ensures answer.uid == uid && AnswerOf(answer).Some? && AnswerOf(answer).value.ok
  {
    var sent, served, packet, id;
    CanSendNext(c, Last(run), uid, r, k);
    sent, served, packet, id, answer := SendAndServe(c, run, uid, r, k, m);
    longer := AnswerComes(c, served, uid, k, m, answer);
    OtherStepMisses(c, run, sent, Send(uid, 0), uid, r, skip);
    ServeMisses(c, sent, served, uid, r, j, l, b, m, id);
    OtherStepMisses(c, served, longer, Label.Wakeup(m, Encode(answer), []), uid, r, skip);
    ExtendsTwice(c, run, sent, served);
    ExtendsTwice(c, run, served, longer);
    RoundDone(c, run, longer, uid, r, k, skip);
  }

  /** The round of the next primary: its callback gets the same answer a second time. */
  lemma PrimaryRound(c: Config, run: Run, uid: nat, r: Request, k: nat, m: nat, answer: Message) returns (longer: Run)
    requires ValidConfig(c) && Proper(c, r) && Answering(c, run, uid, r, k, k)
    requires m == SendTarget(c, r, k)
    requires (m, Encode(answer)) in Last(run).toMaster && Deliver(Encode(answer)) == Some(answer)
    requires answer.uid == uid && AnswerOf(answer).Some? && AnswerOf(answer).value.ok
    ensures Answering(c, longer, uid, r, k + 1, k)
  {
    CanSendNext(c, Last(run), uid, r, k);
    var sent := SendNext(c, run, uid, r, k);
    longer := AnswerComes(c, sent, uid, k, m, answer);
    OtherStepMisses(c, run, sent, Send(uid, 0), uid, r, k);
    OtherStepMisses(c, sent, longer, Label.Wakeup(m, Encode(answer), []), uid, r, k);
    ExtendsTwice(c, run, sent, longer);
    RoundDone(c, run, longer, uid, r, k, k);
  }

  /** The rounds before those two. */
  lemma {:induction false} RoundsBefore(c: Config, run: Run, uid: nat, r: Request, k: nat, skip: nat, m: nat, l: nat, b: Byte)
    returns (longer: Run)
    requires ValidConfig(c) && Proper(c, r) && Answering(c, run, uid, r, 0, skip) && k < 2 * |SegmentsOf(c, r)|
    requires forall e: nat | e < k :: SendTarget(c, r, e) != SendTarget(c, r, skip)
    requires m == SendTarget(c, r, skip) && Cell(Last(run).stores, m, l, b)
    ensures Answering(c, longer, uid, r, k, skip) && Cell(Last(longer).stores, m, l, b)
  {
    longer := run;
    if k > 0 {
      longer := RoundsBefore(c, run, uid, r, k - 1, skip, m, l, b);
      longer := OtherRound(c, longer, uid, r, k - 1, skip);
    }
  }

  /** The rounds after them. */
  lemma {:induction false} RoundsAfter(c: Config, run: Run, uid: nat, r: Request, k: nat, skip: nat, sends: nat)
    returns (longer: Run)
    requires ValidConfig(c) && Proper(c, r) && Answering(c, run, uid, r, k, skip)
    requires k <= sends == 2 * |SegmentsOf(c, r)|
    requires forall e: nat | k <= e < sends :: SendTarget(c, r, e) != SendTarget(c, r, skip)
    ensures Answering(c, longer, uid, r, sends, skip)
    decreases sends - k
  {
    longer := run;
    if k < sends {
      longer := OtherRound(c, run, uid, r, k, skip);
      longer := RoundsAfter(c, longer, uid, r, k + 1, skip, sends);
    }
  }

  /** Nothing of a request is served before its first message is sent. */
  lemma NothingServed(c: Config, run: Run, uid: nat, t: nat, m: nat)
    requires ValidConfig(c) && IsRun(c, run) && uid in Last(run).tasks && Last(run).tasks[uid].phase == Sending(0)
    ensures !ServesWell(run, t, m, uid)
  {
    if ServesWell(run, t, m, uid) {
      var packet := run.labels[t].packet;
      StepOfRun(c, run, t);
      RequestsAreSends(c, run, t);
      assert WasSent(c, run.states[t], m, packet);
      var id :| IsSend(c, run.states[t], m, packet, id);
      RequestArrives(c, run.states[t], m, packet, id);
      SendFitsWire(c, run.states[t], m, id);
      SentGrows(c, run, t, |run.labels|, uid, id.k);
    }
  }

  lemma NothingStored(c: Config, run: Run, uid: nat, r: Request, k: nat)
    requires ValidConfig(c) && IsRun(c, run) && uid in Last(run).tasks && Last(run).tasks[uid].phase == Sending(0)
    requires k < 2 * |SegmentsOf(c, r)|
    ensures !SliceStored(c, run, |run.labels|, uid, r, k)
  {
    forall t: nat | t < |run.labels|
      ensures !StoredSlice(c, run, t, uid, r, k)
    {
      NothingServed(c, run, uid, t, SendTarget(c, r, k));
    }
  }

  /** Request `r` is ready, nothing of it is stored, and the telling cell holds `b`. */
  lemma ReadyToMiss(c: Config, r: Request, skip: nat, m: nat, l: nat, b: Byte) returns (run: Run)
    requires ValidConfig(c) && Proper(c, r) && m < c.n && l < c.chunk && skip < 2 * |SegmentsOf(c, r)|
    ensures Answering(c, run, 1, r, 0, skip) && Cell(Last(run).stores, m, l, b)
  {
    run := Ready(c, r, m, l, b);
    NothingStored(c, run, 1, r, skip);
  }

  /** The two rounds that miss the slice. */
  lemma MissingRounds(c: Config, run: Run, r: Request, j: nat, l: nat, b: Byte, m: nat, k: nat, skip: nat)
    returns (longer: Run)
    requires ValidConfig(c) && Proper(c, r) && r.op == Write && Tells(c, r, j, l, b)
    requires k == 2 * j - 1 && skip == k + 1 && k < 2 * |SegmentsOf(c, r)|
    requires m == SendTarget(c, r, k) == SendTarget(c, r, skip)
    requires Answering(c, run, 1, r, k, skip) && Cell(Last(run).stores, m, l, b)
    ensures Answering(c, longer, 1, r, skip + 1, skip)
  {
    var first, answer := BackupRound(c, run, 1, r, j, l, b, m, k, skip);
    longer := PrimaryRound(c, first, 1, r, skip, m, answer);
  }

  /** The rounds up to that of send `2 * j`. */
  lemma RoundsUpTo(c: Config, r: Request, j: nat, l: nat, b: Byte, m: nat, k: nat, skip: nat) returns (run: Run)
    requires ValidConfig(c) && Proper(c, r) && r.op == Write && Tells(c, r, j, l, b)
    requires k == 2 * j - 1 && skip == k + 1 && skip < 2 * |SegmentsOf(c, r)|
    requires m == SendTarget(c, r, k) == SendTarget(c, r, skip) < c.n && l < c.chunk
    requires forall e: nat | e < k :: SendTarget(c, r, e) != SendTarget(c, r, skip)
    ensures Answering(c, run, 1, r, skip + 1, skip)
  {
    var ready := ReadyToMiss(c, r, skip, m, l, b);
    var before := RoundsBefore(c, ready, 1, r, k, skip, m, l, b);
    run := MissingRounds(c, before, r, j, l, b, m, k, skip);
  }

  /** All callbacks of the write have got OK answers, but one slice is not stored. */
  lemma SkippedSlice(c: Config, r: Request, j: nat, l: nat, b: Byte) returns (run: Run)
    requires ValidConfig(c) && Proper(c, r) && r.op == Write && Tells(c, r, j, l, b)
    ensures Answering(c, run, 1, r, 2 * |SegmentsOf(c, r)|, 2 * j)
  {
    Neighbours(c, r, j);
    run := RoundsUpTo(c, r, j, l, b, SendTarget(c, r, 2 * j), 2 * j - 1, 2 * j);
    run := RoundsAfter(c, run, 1, r, 2 * j + 1, 2 * j, 2 * |SegmentsOf(c, r)|);
  }

  lemma FiredOkIsOk(c: Config, run: Run, uid: nat, k: nat, t: nat)
    requires ValidConfig(c) && IsRun(c, run) && FiredOk(run, uid, k) && FiredAt(run, t, NewCallback(uid, k))
    ensures FiredBy(run.states[t], run.labels[t]).value.1.ok
  {
    var u: nat :| OkAt(run, u, NewCallback(uid, k));
    FiresOnce(c, run, t, u, NewCallback(uid, k));
  }

  lemma HeardIsOk(c: Config, run: Run, uid: nat, count: nat, j: nat)
    requires ValidConfig(c) && IsRun(c, run) && uid in Last(run).tasks
    requires count == |SegmentsOf(c, Last(run).tasks[uid].request)| && j < |Heard(run, |run.labels|, uid)|
    requires forall e: nat | e < 2 * count :: FiredOk(run, uid, e)
    ensures Ok(Heard(run, |run.labels|, uid)[j].message)
  {
    var heard := Heard(run, |run.labels|, uid)[j];
    HeardInRange(c, run, |run.labels|, uid, count);
    var t := HeardWasTold(run, |run.labels|, uid, j);
    var k := SendOf(Callback(uid, heard.segment, heard.role));
    assert NewCallback(uid, k) == Callback(uid, heard.segment, heard.role);
    FiredOkIsOk(c, run, uid, k, t);
  }

  lemma OkAtFired(run: Run, uid: nat, count: nat)
    requires |run.states| == |run.labels| + 1 && forall e: nat | e < 2 * count :: FiredOk(run, uid, e)
    ensures AllFired(run, |run.labels|, uid, count)
  {
    forall i: nat, role: Role | i < count
      ensures FiredBefore(run, |run.labels|, Callback(uid, i, role))
    {
      var k := SendOf(Callback(uid, i, role));
      assert NewCallback(uid, k) == Callback(uid, i, role) && FiredOk(run, uid, k);
      var t: nat :| OkAt(run, t, NewCallback(uid, k));
      assert FiredAt(run, t, Callback(uid, i, role));
    }
  }

  /** A write all of whose callbacks have got OK answers has been answered without error. */
  lemma WriteIsDone(c: Config, run: Run, uid: nat, r: Request, count: nat) returns (i: nat)
    requires ValidConfig(c) && IsRun(c, run) && uid in Last(run).tasks && r.op == Write && r.length > 0
    requires Last(run).tasks[uid] == Task(r, Sending(2 * count)) && count == |SegmentsOf(c, r)|
    requires forall e: nat | e < 2 * count :: FiredOk(run, uid, e)
    ensures SaysOk(c, run, |run.labels|, i, r) && Last(run).replies[i].uid == uid
  {
    SegmentsTile(r.offset, r.length, c.chunk, c.n);
    OkAtFired(run, uid, count);
    WriteAnsweredExactly(c, run, |run.labels|, uid);
    i :| 0 <= i < |Last(run).replies| && Last(run).replies[i].uid == uid;
    WriteReplyVerdict(c, run, |run.labels|, i);
    forall heard | heard in Heard(run, |run.labels|, uid)
      ensures Ok(heard.message)
    {
      var j: nat :| j < |Heard(run, |run.labels|, uid)| && Heard(run, |run.labels|, uid)[j] == heard;
      HeardIsOk(c, run, uid, count, j);
    }
  }

  /** A run that answers the write without error although the primary of segment `j` has not
      stored its slice: the answer of the same minion to the backup of the segment before,
      received twice, was taken for it. */
  lemma WrongWrite(c: Config, r: Request, j: nat, l: nat, b: Byte) returns (run: Run, i: nat)
    requires ValidConfig(c) && Proper(c, r) && r.op == Write && Tells(c, r, j, l, b)
    ensures SaysOk(c, run, |run.labels|, i, r)
    ensures !SliceStored(c, run, |run.labels|, Last(run).replies[i].uid, r, 2 * j)
  {
    run := SkippedSlice(c, r, j, l, b);
    i := WriteIsDone(c, run, 1, r, |SegmentsOf(c, r)|);
  }

  /** A reply without error to a write is true in every run exactly if the write is one
      segment, or fills whole chunks with the same bytes again and again. */
  lemma WriteIsTruthfulExactly(c: Config, r: Request)
    requires ValidConfig(c) && Proper(c, r) && r.op == Write
    ensures WriteIsTruthful(c, r) <==> |SegmentsOf(c, r)| == 1 || Repeats(c, r)
  {
    SegmentsTile(r.offset, r.length, c.chunk, c.n);
    if |SegmentsOf(c, r)| == 1 {
      OneSegmentServes(c, r);
      InterchangeableWrite(c, r);
    } else if Repeats(c, r) {
      RepeatingWriteServes(c, r);
      InterchangeableWrite(c, r);
    } else {
      var j, l, b := SomethingTells(c, r);
      var run, i := WrongWrite(c, r, j, l, b);
      assert !AllStored(c, run, |run.labels|, i, r);
    }
  }

  /** Whatever the bytes, writes of this extent are answered without error only if they were
      done. */
  ghost predicate WritesAreTruthful(c: Config, offset: nat, length: nat)
    requires ValidConfig(c)
  {
    forall r: Request | ValidRequest(r) && r.op == Write && r.offset == offset && r.length == length ::
      WriteIsTruthful(c, r)
  }

  /** Zeros with a one at the end. */
  function EndsInOne(offset: nat, length: nat): Request
    requires length > 0
  {
    Request(Zeros(8), Write, offset, length, Zeros(length - 1) + [1])
  }

  lemma OneAtTheEnd(c: Config, offset: nat, length: nat)
    requires ValidConfig(c) && length > 0 && |SegmentsOf(c, EndsInOne(offset, length))| >= 2
    ensures !Repeats(c, EndsInOne(offset, length))
  {
    var r := EndsInOne(offset, length);
    if offset % c.chunk == 0 {
      AlignedSegment(c, r, 0);
      NextPiece(c, r, 0);
      PieceBounds(offset, length, c.chunk, 1);
      AlignedStart(c, r, 0);
      assert r.data[length - 1] != r.data[length - 1 - c.chunk];
    }
  }

  lemma WritesAreTruthfulExactly(c: Config, offset: nat, length: nat)
    requires ValidConfig(c) && 0 < length < U32 && offset + length <= c.n * c.chunk
    requires SmallSlices(c, EndsInOne(offset, length))
    ensures WritesAreTruthful(c, offset, length) <==> |Segments(offset, length, c.chunk, c.n)| == 1
  {
    var r := EndsInOne(offset, length);
    SegmentsTile(offset, length, c.chunk, c.n);
    if |Segments(offset, length, c.chunk, c.n)| == 1 {
      forall q: Request | ValidRequest(q) && q.op == Write && q.offset == offset && q.length == length
        ensures WriteIsTruthful(c, q)
      {
        OneSegmentServes(c, q);
        InterchangeableWrite(c, q);
      }
    } else {
      OneAtTheEnd(c, offset, length);
      WriteIsTruthfulExactly(c, r);
    }
  }
}
