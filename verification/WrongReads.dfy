/** A read that is answered without error with bytes that were never there, or too few of them,
    and so exactly which reads are told the truth whatever the schedule. */
module WrongReads {
  import opened Types
  import opened StripeSplitter
  import opened Codec
  import opened MirrorTicket
  import opened ReadAssembly
  import opened Minion
  import opened MasterProxies
  import opened RaidSystem
  import opened RaidInvariant
  import opened RaidOrigin
  import opened RaidSafety
  import opened RaidReplies
  import opened RaidTickets
  import opened WideCallbacks
  import opened WideReplies
  import opened WideTruth
  import opened RaidProgress
  import opened RaidExamples
  import opened Rounds
  import opened WrongWrites
  import opened LocalWrites
  import opened WideRequests
  import opened RaidStores

  /** The callback has got this answer. */
  ghost predicate Got(run: Run, call: Callback, answer: Answer)
    requires |run.states| == |run.labels| + 1
  {
    exists t: nat :: GotAt(run, t, call, answer)
  }

  ghost predicate GotAt(run: Run, t: nat, call: Callback, answer: Answer)
    requires |run.states| == |run.labels| + 1
  {
    FiredAt(run, t, call) && FiredBy(run.states[t], run.labels[t]).value.1 == answer
  }

  /** No callback of a backup of request `uid` has fired. */
  ghost predicate BackupsSilent(run: Run, uid: nat)
    requires |run.states| == |run.labels| + 1
  {
    forall e: nat | e % 2 == 1 :: !FiredBefore(run, |run.labels|, NewCallback(uid, e))
  }

  /** The first `k` messages of read 1 are out; the callbacks of primaries have got OK answers,
      those of backups none. Minion `m` holds byte 7 at `l`, where request 0 put it. */
  ghost predicate Reading(c: Config, run: Run, r: Request, k: nat, m: nat, l: nat)
    requires ValidConfig(c)
  {
    && IsRun(c, run) && Cell(Last(run).stores, m, l, 7)
    && Last(run).tasks == map[0 := Task(Seed(c, m, l, 7), Sending(1)), 1 := Task(r, Sending(k))]
    && (forall e: nat | e < k && e % 2 == 0 :: FiredOk(run, 1, e))
    && BackupsSilent(run, 1)
  }

  lemma PrimariesStillFired(c: Config, run: Run, longer: Run, uid: nat, k: nat)
    requires ValidConfig(c) && IsRun(c, run) && Extends(c, run, longer)
    requires forall e: nat | e < k && e % 2 == 0 :: FiredOk(run, uid, e)
    ensures forall e: nat | e < k && e % 2 == 0 :: FiredOk(longer, uid, e)
  {
    forall e: nat | e < k && e % 2 == 0
      ensures FiredOk(longer, uid, e)
    {
      FiredOkStays(c, run, longer, uid, e);
    }
  }

  /** A message to a backup is only sent. */
  lemma BackupSent(c: Config, run: Run, r: Request, k: nat, m: nat, l: nat) returns (longer: Run)
    requires ValidConfig(c) && Proper(c, r) && Reading(c, run, r, k, m, l) && k < 2 * |SegmentsOf(c, r)| && k % 2 == 1
    ensures Extends(c, run, longer) && Reading(c, longer, r, k + 1, m, l)
  {
    CanSendNext(c, Last(run), 1, r, k);
    longer := SendNext(c, run, 1, r, k);
    PrimariesStillFired(c, run, longer, 1, k);
  }

  lemma ReadKeepsCells(c: Config, s: System, m: nat, id: SendId, cells: seq<Byte>)
    requires ValidConfig(c) && ValidSend(c, s, m, id) && s.tasks[id.uid].request.op == Read
    ensures CellsAfter(cells, MessageOf(c, s, m, id), true, []) == cells
  {
    SendMessage(c, s, m, id);
  }

  lemma StillSilent(c: Config, run: Run, longer: Run, uid: nat, k: nat)
    requires ValidConfig(c) && IsRun(c, run) && Extends(c, run, longer) && |longer.labels| == |run.labels| + 2
    requires FiredBy(longer.states[|run.labels|], longer.labels[|run.labels|]) == None
    requires FiredAt(longer, |run.labels| + 1, NewCallback(uid, k)) && k % 2 == 0 && BackupsSilent(run, uid)
    ensures BackupsSilent(longer, uid)
  {
    forall e: nat | e % 2 == 1 && FiredBefore(longer, |longer.labels|, NewCallback(uid, e))
      ensures false
    {
      OnlyOneFires(c, run, longer, NewCallback(uid, k), NewCallback(uid, e));
    }
  }

  /** The OK answer to a send of a read carries what the file holds where it reads. */
  lemma ReadAnswer(c: Config, s: System, m: nat, id: SendId, r: Request, cells: seq<Byte>, answer: Message)
    requires ValidConfig(c) && ValidSend(c, s, m, id) && s.tasks[id.uid].request == r && r.op == Read
    requires |cells| == c.chunk && AnswerTo(cells, MessageOf(c, s, m, id), true, []) == Some(answer)
    ensures var seg := SegmentFor(c, r, id.k);
      && seg.localOffset + seg.length <= |cells|
      && AnswerOf(answer) == Some(Answer(true, Some(cells[seg.localOffset..seg.localOffset + seg.length])))
  {
    SendMessage(c, s, m, id);
    SendFitsWire(c, s, m, id);
  }

  /** `data` is what the minion of send `k` holds where that send reads. */
  ghost predicate ReadFrom(c: Config, s: System, r: Request, k: nat, data: seq<Byte>)
    requires ValidConfig(c) && k < 2 * |SegmentsOf(c, r)|
  {
    var seg, m := SegmentFor(c, r, k), SendTarget(c, r, k);
    && m < |s.stores| && seg.localOffset + seg.length <= |s.stores[m]|
    && data == s.stores[m][seg.localOffset..seg.localOffset + seg.length]
  }

  lemma IsReadFrom(c: Config, s: System, r: Request, k: nat, m: nat, seg: Segment, data: seq<Byte>)
    requires ValidConfig(c) && k < 2 * |SegmentsOf(c, r)| && m == SendTarget(c, r, k) && seg == SegmentFor(c, r, k)
    requires m < |s.stores| && seg.localOffset + seg.length <= |s.stores[m]|
    requires data == s.stores[m][seg.localOffset..seg.localOffset + seg.length]
    ensures ReadFrom(c, s, r, k, data)
  {
  }

  lemma FileSize(c: Config, run: Run, m: nat)
    requires ValidConfig(c) && IsRun(c, run) && m < |Last(run).stores|
    ensures |Last(run).stores[m]| == c.chunk
  {
    RunKeeps(c, run, |run.labels|);
  }

  lemma ReadingSent(c: Config, run: Run, r: Request, e: nat, m: nat, id: SendId, answer: Message) returns (data: seq<Byte>)
    requires ValidConfig(c) && IsRun(c, run) && ValidSend(c, Last(run), m, id) && Last(run).tasks[id.uid].request == r
    requires r.op == Read && e == id.k < 2 * |SegmentsOf(c, r)| && m == SendTarget(c, r, e) && m < |Last(run).stores|
    requires AnswerTo(Last(run).stores[m], MessageOf(c, Last(run), m, id), true, []) == Some(answer)
    ensures AnswerOf(answer) == Some(Answer(true, Some(data))) && ReadFrom(c, Last(run), r, e, data)
  {
    FileSize(c, run, m);
    ReadAnswer(c, Last(run), m, id, r, Last(run).stores[m], answer);
    data := AnswerOf(answer).value.data.value;
    IsReadFrom(c, Last(run), r, e, m, SegmentFor(c, r, e), data);
  }

  /** The next primary's callback gets the answer to send `e`, which went to the same minion. */
  lemma PrimaryAnswered(c: Config, run: Run, r: Request, k: nat, e: nat, m: nat, l: nat)
    returns (longer: Run, data: seq<Byte>)
    requires ValidConfig(c) && Proper(c, r) && r.op == Read && Reading(c, run, r, k, m, l)
    requires e <= k < 2 * |SegmentsOf(c, r)| && k % 2 == 0 && SendTarget(c, r, e) == SendTarget(c, r, k)
    ensures Extends(c, run, longer) && Reading(c, longer, r, k + 1, m, l)
    ensures ReadFrom(c, Last(run), r, e, data) && Got(longer, NewCallback(1, k), Answer(true, Some(data)))
  {
    var id, answer;
    CanSendNext(c, Last(run), 1, r, k);
    var sent := SendNext(c, run, 1, r, k);
    longer, id, answer := AnswerReaches(c, sent, 1, e, SendTarget(c, r, k), NewCallback(1, k), true);
    ReadKeepsCells(c, Last(sent), SendTarget(c, r, k), id, Last(sent).stores[SendTarget(c, r, k)]);
    data := ReadingSent(c, sent, r, e, SendTarget(c, r, k), id, answer);
    StillSilent(c, sent, longer, 1, k);
    ExtendsTwice(c, run, sent, longer);
    PrimariesStillFired(c, run, longer, 1, k);
    assert OkAt(longer, |sent.labels| + 1, NewCallback(1, k));
    assert GotAt(longer, |sent.labels| + 1, NewCallback(1, k), AnswerOf(answer).value);
  }

  lemma GotStays(c: Config, run: Run, longer: Run, call: Callback, answer: Answer)
    requires ValidConfig(c) && IsRun(c, run) && Extends(c, run, longer) && Got(run, call, answer)
    ensures Got(longer, call, answer)
  {
    PrefixOfRun(c, run, longer);
    var t: nat :| GotAt(run, t, call, answer);
    assert GotAt(longer, t, call, answer);
  }

  /** The rest of the messages. */
  lemma {:induction false} ReadOn(c: Config, run: Run, r: Request, k: nat, m: nat, l: nat, sends: nat) returns (longer: Run)
    requires ValidConfig(c) && Proper(c, r) && r.op == Read && Reading(c, run, r, k, m, l)
    requires k <= sends == 2 * |SegmentsOf(c, r)|
    ensures Extends(c, run, longer) && Reading(c, longer, r, sends, m, l)
    decreases sends - k
  {
    longer := run;
    if k < sends {
      var next;
      if k % 2 == 1 {
        next := BackupSent(c, run, r, k, m, l);
      } else {
        var data;
        next, data := PrimaryAnswered(c, run, r, k, k, m, l);
      }
      longer := ReadOn(c, next, r, k + 1, m, l, sends);
      ExtendsTwice(c, run, next, longer);
    }
  }

  lemma ReadyToRead(c: Config, r: Request, m: nat, l: nat) returns (run: Run)
    requires ValidConfig(c) && Proper(c, r) && m < c.n && l < c.chunk
    ensures Reading(c, run, r, 0, m, l)
  {
    run := Ready(c, r, m, l, 7);
  }

  lemma StartsWithSeven(c: Config, s: System, r: Request, m: nat, l: nat, data: seq<Byte>)
    requires ValidConfig(c) && |SegmentsOf(c, r)| >= 2 && m == SendTarget(c, r, 1) && l == r.offset % c.chunk
    requires Cell(s.stores, m, l, 7) && ReadFrom(c, s, r, 1, data)
    ensures |data| == SegmentsOf(c, r)[0].length > 0 && data[0] == 7
  {
    PieceBounds(r.offset, r.length, c.chunk, 0);
  }

  /** The first segment's messages are out, and its primary has answered. */
  lemma FirstSegmentSent(c: Config, r: Request, m: nat, l: nat) returns (run: Run)
    requires ValidConfig(c) && Proper(c, r) && r.op == Read && |SegmentsOf(c, r)| >= 2 && m < c.n && l < c.chunk
    ensures Reading(c, run, r, 2, m, l)
  {
    var ready := ReadyToRead(c, r, m, l);
    var first, own := PrimaryAnswered(c, ready, r, 0, 0, m, l);
    run := BackupSent(c, first, r, 1, m, l);
  }

  /** The second primary's callback has got what the first backup, the same minion, holds for
      the first segment: it is as long as that one and starts with 7. */
  lemma MixedUp(c: Config, r: Request, m: nat, l: nat) returns (run: Run, data: seq<Byte>)
    requires ValidConfig(c) && Proper(c, r) && r.op == Read && |SegmentsOf(c, r)| >= 2
    requires m == SendTarget(c, r, 1) == SendTarget(c, r, 2) < c.n && l == r.offset % c.chunk
    ensures Reading(c, run, r, 2 * |SegmentsOf(c, r)|, m, l)
    ensures Got(run, NewCallback(1, 2), Answer(true, Some(data)))
    ensures |data| == SegmentsOf(c, r)[0].length > 0 && data[0] == 7
  {
    var sent := FirstSegmentSent(c, r, m, l);
    var mixed;
    mixed, data := PrimaryAnswered(c, sent, r, 2, 1, m, l);
    StartsWithSeven(c, Last(sent), r, m, l, data);
    run := ReadOn(c, mixed, r, 3, m, l, 2 * |SegmentsOf(c, r)|);
    GotStays(c, mixed, run, NewCallback(1, 2), Answer(true, Some(data)));
  }

  lemma NoBackupHeard(run: Run, uid: nat, i: nat)
    requires |run.states| == |run.labels| + 1 && BackupsSilent(run, uid)
    ensures !Answered(Heard(run, |run.labels|, uid), i, Backup)
  {
    AnsweredIsFired(run, |run.labels|, uid, i, Backup);
    assert NewCallback(uid, 2 * i + 1) == Callback(uid, i, Backup);
  }

  lemma PrimariesSettle(run: Run, uid: nat, count: nat)
    requires |run.states| == |run.labels| + 1 && BackupsSilent(run, uid)
    requires forall e: nat | e < 2 * count && e % 2 == 0 :: FiredOk(run, uid, e)
    ensures Settled(Read, Heard(run, |run.labels|, uid), count)
  {
    forall i: nat | i < count
      ensures Covered(Read, Heard(run, |run.labels|, uid), i)
    {
      assert FiredOk(run, uid, 2 * i);
      OkIsHeard(run, uid, i, Primary);
    }
  }

  /** Without backups, whatever settles the read does so well. */
  lemma SettledByPrimaries(heard: seq<Response>, k: nat, count: nat)
    requires k <= |heard| && Settled(Read, heard[..k], count)
    requires forall i: nat | i < count :: !Answered(heard, i, Backup)
    ensures EveryMirrorPairOk(heard[..k], count)
  {
    forall i: nat | i < count
      ensures SomeMirrorOk(heard[..k], i)
    {
      assert Covered(Read, heard[..k], i);
      AnsweredGrows(heard, k, |heard|, i, Backup);
      assert heard[..|heard|] == heard;
    }
  }

  lemma ReadIsAnswered(c: Config, run: Run, r: Request, count: nat) returns (i: nat)
    requires ValidConfig(c) && IsRun(c, run) && 1 in Last(run).tasks && r.op == Read && r.length > 0
    requires Last(run).tasks[1] == Task(r, Sending(2 * count)) && count == |SegmentsOf(c, r)|
    requires BackupsSilent(run, 1) && Settled(Read, Heard(run, |run.labels|, 1), count)
    ensures SaysOk(c, run, |run.labels|, i, r) && Last(run).replies[i].uid == 1
  {
    var heard := Heard(run, |run.labels|, 1);
    SegmentsTile(r.offset, r.length, c.chunk, c.n);
    AnsweredExactly(c, run, |run.labels|, 1);
    i :| 0 <= i < |Last(run).replies| && Last(run).replies[i].uid == 1;
    ReadReplyVerdict(c, run, |run.labels|, i);
    SettledAtSettles(Read, heard, count);
    forall j: nat | j < count
      ensures !Answered(heard, j, Backup)
    {
      NoBackupHeard(run, 1, j);
    }
    SettledByPrimaries(heard, SettledAt(Read, heard, count), count);
  }

  lemma ToldIsFired(run: Run, t: nat, call: Callback, told: Response)
    requires |run.states| == |run.labels| + 1 && FiredAt(run, t, call)
    requires Told(run.states[t], run.labels[t], call.ticket) == [told]
    ensures told.message == Some(FiredBy(run.states[t], run.labels[t]).value.1)
  {
  }

  /** What the ticket was told about a mirror is what its callback got. */
  lemma ToldIsGot(c: Config, run: Run, uid: nat, j: nat, call: Callback, answer: Answer)
    requires ValidConfig(c) && IsRun(c, run) && j < |Heard(run, |run.labels|, uid)|
    requires call == Callback(uid, Heard(run, |run.labels|, uid)[j].segment, Heard(run, |run.labels|, uid)[j].role)
    requires Got(run, call, answer)
    ensures Heard(run, |run.labels|, uid)[j].message == Some(answer)
  {
    var t := HeardWasTold(run, |run.labels|, uid, j);
    var u: nat :| GotAt(run, u, call, answer);
    FiresOnce(c, run, t, u, call);
    ToldIsFired(run, t, call, Heard(run, |run.labels|, uid)[j]);
  }

  lemma HeardOfPrimary(heard: seq<Response>, j: nat, i: nat)
    requires j < |heard| && heard[j].segment == i && !Answered(heard, i, Backup)
    ensures heard[j].role == Primary
  {
    assert IsAnswer(heard[j], i, heard[j].role);
  }

  /** The second segment takes its bytes from the answer that its primary's callback got. */
  lemma SecondSegmentTakes(c: Config, run: Run, r: Request, answer: Answer)
    requires ValidConfig(c) && IsRun(c, run) && 1 in Last(run).tasks && Last(run).tasks[1].request == r
    requires BackupsSilent(run, 1) && Got(run, NewCallback(1, 2), answer) && |SegmentsOf(c, r)| >= 2
    requires 1 in Last(run).state && |Last(run).state[1].segments| >= 2 && Select(Last(run).state[1].segments[1]).Some?
    ensures Select(Last(run).state[1].segments[1]) == Some(answer)
  {
    var heard := Heard(run, |run.labels|, 1);
    var j := ChosenWasHeard(c, run, |run.labels|, 1, r, 1);
    NoBackupHeard(run, 1, 1);
    HeardOfPrimary(heard, j, 1);
    ToldIsGot(c, run, 1, j, NewCallback(1, 2), answer);
  }

  // ----- The bytes were never there -------------------------------------------------------------------

  /** Every write stores one byte, at local address `l`. */
  predicate OneByteAt(ws: seq<LocalWrite>, n: nat, l: nat)
  {
    forall k | 0 <= k < |ws| :: ws[k].minion < n && ws[k].at == l && |ws[k].data| == 1
  }

  lemma SeedOutgoing(c: Config, s: System, m: nat, l: nat, b: Byte, id: SendId, to: nat)
    requires ValidConfig(c) && SegmentsOf(c, Seed(c, m, l, b)) == [Segment(l, 1, 0, m, BackupIndex(m, c.n))]
    requires ValidSend(c, s, to, id) && s.tasks[id.uid].request == Seed(c, m, l, b)
    ensures var sent := AppliedBy(OutgoingOf(c, Seed(c, m, l, b), id.uid, id.k, id.trailer));
      sent.at == l && |sent.data| == 1
  {
    SendMessage(c, s, to, id);
    assert id.k / 2 == 0;
  }

  lemma EffectIsOneByte(c: Config, s: System, lbl: Label, m: nat, l: nat, b: Byte, id: SendId)
    requires ValidConfig(c) && SegmentsOf(c, Seed(c, m, l, b)) == [Segment(l, 1, 0, m, BackupIndex(m, c.n))]
    requires lbl.Serve? && lbl.minion < c.n
    requires EffectOf(s, lbl) != [] && |EffectOf(s, lbl)| == 1 && EffectIsSend(c, s, lbl, id)
    requires s.tasks[id.uid].request == Seed(c, m, l, b)
    ensures OneByteAt(EffectOf(s, lbl), c.n, l)
  {
    SeedOutgoing(c, s, m, l, b, id, lbl.minion);
  }

  lemma WriteIsSeed(c: Config, run: Run, t: nat, uid: nat, r: Request, k: nat, m: nat, l: nat)
    requires ValidConfig(c) && Reading(c, run, r, k, m, l) && r.op == Read && t < |run.states|
    requires uid in run.states[t].tasks && run.states[t].tasks[uid].request.op == Write
    ensures run.states[t].tasks[uid].request == Seed(c, m, l, 7)
  {
    RequestStays(c, run, t, |run.labels|, uid);
  }

  lemma EffectsAreOneByte(c: Config, run: Run, t: nat, r: Request, k: nat, m: nat, l: nat)
    requires ValidConfig(c) && Reading(c, run, r, k, m, l) && r.op == Read && t < |run.labels|
    requires SegmentsOf(c, Seed(c, m, l, 7)) == [Segment(l, 1, 0, m, BackupIndex(m, c.n))]
    ensures OneByteAt(EffectOf(run.states[t], run.labels[t]), c.n, l)
  {
    if EffectOf(run.states[t], run.labels[t]) != [] {
      var id := EffectsAreSends(c, run, t);
      RunKeeps(c, run, t);
      StepOfRun(c, run, t);
      WriteIsSeed(c, run, t, id.uid, r, k, m, l);
      EffectIsOneByte(c, run.states[t], run.labels[t], m, l, 7, id);
    }
  }

  /** The first byte of file `at` is zero. */
  ghost predicate StartsWithZero(c: Config, s: System, at: nat)
  {
    at < |s.stores| && |s.stores[at]| == c.chunk > 0 && s.stores[at][0] == 0
  }

  lemma ZeroStays(stores: seq<seq<Byte>>, ws: seq<LocalWrite>, n: nat, chunk: nat, l: nat, at: nat)
    requires Files(stores, n, chunk) && OneByteAt(ws, n, l) && 0 < l < chunk && at < n && stores[at][0] == 0
    ensures at < |Replay(stores, ws)| && |Replay(stores, ws)[at]| == chunk && Replay(stores, ws)[at][0] == 0
  {
    CellUntouched(stores, ws, n, chunk, at, 0);
  }

  lemma ZeroStep(c: Config, run: Run, t: nat, r: Request, k: nat, m: nat, l: nat, at: nat)
    requires ValidConfig(c) && Reading(c, run, r, k, m, l) && r.op == Read && t < |run.labels| && 0 < l < c.chunk
    requires SegmentsOf(c, Seed(c, m, l, 7)) == [Segment(l, 1, 0, m, BackupIndex(m, c.n))]
    requires at < c.n && StartsWithZero(c, run.states[t], at)
    ensures StartsWithZero(c, run.states[t + 1], at)
  {
    RunKeeps(c, run, t);
    StepOfRun(c, run, t);
    StepStores(c, run.states[t], run.labels[t]);
    EffectsAreOneByte(c, run, t, r, k, m, l);
    ZeroStays(run.states[t].stores, EffectOf(run.states[t], run.labels[t]), c.n, c.chunk, l, at);
  }

  /** Only a byte that is not the first of a file was ever written. */
  lemma {:induction false} AlwaysZero(c: Config, run: Run, t: nat, r: Request, k: nat, m: nat, l: nat, at: nat)
    requires ValidConfig(c) && Reading(c, run, r, k, m, l) && r.op == Read && t < |run.states| && 0 < l < c.chunk
    requires SegmentsOf(c, Seed(c, m, l, 7)) == [Segment(l, 1, 0, m, BackupIndex(m, c.n))]
    requires at < c.n
    ensures StartsWithZero(c, run.states[t], at)
  {
    if t > 0 {
      AlwaysZero(c, run, t - 1, r, k, m, l, at);
      ZeroStep(c, run, t - 1, r, k, m, l, at);
    }
  }

  // ----- What the reply says of the second segment --------------------------------------------------

  lemma StartOfSole(segs: seq<SegmentState>, init: seq<Byte>, i: nat, at: nat, data: seq<Byte>)
    requires Fits(segs, |init|) && SoleOwner(segs, i) && at == segs[i].bufferOffset && segs[i].length > 0
    requires Select(segs[i]) == Some(Answer(true, Some(data))) && |data| > 0
    ensures at < |init| && Assemble(init, segs)[at] == data[0]
  {
    assert Alone(segs, i, at);
    SelectedByte(segs, init, i, at, data);
  }

  /** The reply's byte at the start of segment 1 is the first of the answer it takes. */
  lemma FirstByteTaken(c: Config, t: State, r: Request, init: seq<Byte>, data: seq<Byte>, at: nat)
    requires ValidConfig(c) && TicketMatches(c, t, r) && |SegmentsOf(c, r)| >= 2 && at == SegmentsOf(c, r)[1].bufferOffset
    requires Fits(t.segments, |init|) && Select(t.segments[1]) == Some(Answer(true, Some(data))) && |data| > 0
    ensures at < |init| && Assemble(init, t.segments)[at] == data[0]
  {
    PieceBounds(r.offset, r.length, c.chunk, 1);
    SegmentAlone(c, t, r, 1);
    StartOfSole(t.segments, init, 1, at, data);
  }

  /** A reply that starts a segment with 7 is wrong if no file starts with 7. */
  lemma NeverHeld(c: Config, run: Run, r: Request, uid: nat, bytes: seq<Byte>)
    requires ValidConfig(c) && IsRun(c, run) && |SegmentsOf(c, r)| >= 2 && |bytes| > 0 && bytes[0] == 7
    requires forall t: nat, at: nat | t < |run.states| && at < c.n :: StartsWithZero(c, run.states[t], at)
    ensures !SegmentHeld(c, run, |run.labels|, uid, r, 1, bytes)
  {
    forall t: nat, k: nat | t < |run.labels| && k / 2 == 1
      ensures !HeldPiece(c, run, t, uid, r, k, bytes)
    {
      RunKeeps(c, run, t);
      assert SegmentFor(c, r, k) == SegmentsOf(c, r)[1];
      if SendTarget(c, r, k) < c.n {
        assert StartsWithZero(c, run.states[t], SendTarget(c, r, k));
      }
    }
  }

  /** A run whose reply to the read takes its second segment from what the first backup holds
      for the first segment. */
  lemma WrongAnswer(c: Config, r: Request, m: nat, l: nat) returns (run: Run, i: nat, data: seq<Byte>)
    requires ValidConfig(c) && Proper(c, r) && r.op == Read && |SegmentsOf(c, r)| >= 2
    requires m == SendTarget(c, r, 1) == SendTarget(c, r, 2) < c.n && l == r.offset % c.chunk
    ensures Reading(c, run, r, 2 * |SegmentsOf(c, r)|, m, l)
    ensures SaysOk(c, run, |run.labels|, i, r) && Last(run).replies[i].uid == 1
    ensures 1 in Last(run).state && TicketMatches(c, Last(run).state[1], r)
    ensures Select(Last(run).state[1].segments[1]) == Some(Answer(true, Some(data)))
    ensures |data| == SegmentsOf(c, r)[0].length > 0 && data[0] == 7
    ensures var at := SegmentsOf(c, r)[1].bufferOffset;
      at < |Last(run).replies[i].payload| && Last(run).replies[i].payload[at] == 7
  {
    run, data := MixedUp(c, r, m, l);
    PrimariesSettle(run, 1, |SegmentsOf(c, r)|);
    i := ReadIsAnswered(c, run, r, |SegmentsOf(c, r)|);
    var init := OkReadTicket(c, run, |run.labels|, i, 1, r);
    SecondSegmentTakes(c, run, r, Answer(true, Some(data)));
    FirstByteTaken(c, Last(run).state[1], r, init, data, SegmentsOf(c, r)[1].bufferOffset);
  }

  /** A run that answers the read without error with a byte 7 at the start of its second
      segment, although no file ever starts with 7: the answer of the first backup was
      taken for the second primary's. */
  lemma WrongRead(c: Config, r: Request) returns (run: Run, i: nat)
    requires ValidConfig(c) && Proper(c, r) && r.op == Read && |SegmentsOf(c, r)| >= 2 && r.offset % c.chunk > 0
    ensures SaysOk(c, run, |run.labels|, i, r)
    ensures var at := SegmentsOf(c, r)[1].bufferOffset;
      at < |Last(run).replies[i].payload| && Last(run).replies[i].payload[at] == 7
    ensures SegmentsOf(c, r)[1].localOffset == 0
    ensures forall t: nat, at: nat | t < |run.states| && at < c.n :: StartsWithZero(c, run.states[t], at)
  {
    var m, l := SendTarget(c, r, 1), r.offset % c.chunk;
    var data;
    Neighbours(c, r, 1);
    run, i, data := WrongAnswer(c, r, m, l);
    SeedIsProper(c, m, l, 7);
    forall t: nat, at: nat | t < |run.states| && at < c.n
      ensures StartsWithZero(c, run.states[t], at)
    {
      AlwaysZero(c, run, t, r, 2 * |SegmentsOf(c, r)|, m, l, at);
    }
  }

  lemma NotReturned(c: Config, r: Request, run: Run, i: nat)
    requires ValidConfig(c) && |SegmentsOf(c, r)| >= 2 && SaysOk(c, run, |run.labels|, i, r)
    requires var at := SegmentsOf(c, r)[1].bufferOffset;
      at < |Last(run).replies[i].payload| && Last(run).replies[i].payload[at] == 7
    requires forall t: nat, at: nat | t < |run.states| && at < c.n :: StartsWithZero(c, run.states[t], at)
    ensures !Returned(c, run, |run.labels|, i, r, 1)
  {
    var seg, reply := SegmentsOf(c, r)[1], Last(run).replies[i];
    PieceBounds(r.offset, r.length, c.chunk, 1);
    if seg.bufferOffset + seg.length <= |reply.payload| {
      NeverHeld(c, run, r, reply.uid, reply.payload[seg.bufferOffset..seg.bufferOffset + seg.length]);
    }
  }

  /** A reply without error to a read is true in every run exactly if the read is one segment
      or starts at a chunk boundary. */
  lemma ReadIsTruthfulExactly(c: Config, r: Request)
    requires ValidConfig(c) && Proper(c, r) && r.op == Read
    ensures ReadIsTruthful(c, r) <==> |SegmentsOf(c, r)| == 1 || r.offset % c.chunk == 0
  {
    SegmentsTile(r.offset, r.length, c.chunk, c.n);
    if |SegmentsOf(c, r)| == 1 {
      OneSegmentServes(c, r);
      InterchangeableRead(c, r);
    } else if r.offset % c.chunk == 0 {
      AlignedReadServes(c, r);
      InterchangeableRead(c, r);
    } else {
      var run, i := WrongRead(c, r);
      NotReturned(c, r, run, i);
      assert !AllReturned(c, run, |run.labels|, i, r);
    }
  }

  // ----- Answers with fewer bytes than their segment ------------------------------------------------

  /** The ticket has recorded, for a mirror of segment `i`, an OK answer with fewer bytes than
      the segment has. */
  ghost predicate HasShort(t: State, i: nat, role: Role)
  {
    && i < |t.segments| && Ok(MessageFor(t.segments[i], role))
    && var data := MessageFor(t.segments[i], role).value.data; data.None? || |data.value| < t.segments[i].length
  }

  ghost predicate RecordsShort(c: Config, run: Run, uid: nat, r: Request, i: nat, role: Role)
    requires ValidConfig(c)
  {
    && IsRun(c, run) && uid in Last(run).tasks && Last(run).tasks[uid].request == r
    && uid in Last(run).state && HasShort(Last(run).state[uid], i, role)
  }

  ghost predicate CanRecordShort(c: Config, r: Request)
    requires ValidConfig(c)
  {
    exists run, uid: nat, i: nat, role: Role :: RecordsShort(c, run, uid, r, i, role)
  }

  /** Reply `i` answers the read without error, and segment `k` did not fill its part of the
      buffer. */
  ghost predicate ReturnsShort(c: Config, run: Run, i: nat, r: Request, k: nat)
    requires ValidConfig(c)
  {
    && IsRun(c, run) && SaysOk(c, run, |run.labels|, i, r)
    && Last(run).replies[i].uid in Last(run).state
    && var t := Last(run).state[Last(run).replies[i].uid];
       k < |t.segments| && |Piece(t.segments[k])| < t.segments[k].length
  }

  ghost predicate CanReturnShort(c: Config, r: Request)
    requires ValidConfig(c)
  {
    exists run, i: nat, k: nat :: ReturnsShort(c, run, i, r, k)
  }

  /** Of two segments whose sends collide the earlier is the shorter only if the first segment
      is shorter than the second. */
  lemma ShorterBefore(c: Config, r: Request, e: nat, k: nat)
    requires ValidConfig(c) && e < k < 2 * |SegmentsOf(c, r)| && Collide(c.n, e, k)
    requires SegmentFor(c, r, e).length < SegmentFor(c, r, k).length
    ensures |SegmentsOf(c, r)| >= 2 && SegmentsOf(c, r)[0].length < SegmentsOf(c, r)[1].length
  {
    PieceBounds(r.offset, r.length, c.chunk, e / 2);
    PieceBounds(r.offset, r.length, c.chunk, k / 2);
    if k / 2 > 1 {
      PieceBounds(r.offset, r.length, c.chunk, 1);
    }
  }

  /** How many bytes an OK answer that was heard about a read has. */
  lemma HeardBytes(c: Config, run: Run, uid: nat, r: Request, j: nat) returns (e: nat)
    requires ValidConfig(c) && IsRun(c, run) && uid in Last(run).tasks && Last(run).tasks[uid].request == r
    requires r.op == Read && j < |Heard(run, |run.labels|, uid)| && Ok(Heard(run, |run.labels|, uid)[j].message)
    ensures var heard := Heard(run, |run.labels|, uid)[j]; var k := SendOf(Callback(uid, heard.segment, heard.role));
      && e <= k < 2 * |SegmentsOf(c, r)| && (e == k || Collide(c.n, e, k))
      && heard.message.value.data.Some? && |heard.message.value.data.value| == SegmentFor(c, r, e).length
  {
    var t := HeardWasTold(run, |run.labels|, uid, j);
    var o := AnswerIsOwnOrColliding(c, run, t);
    RequestStays(c, run, t, |run.labels|, uid);
    OkReadHoldsPiece(c, run, t, run.labels[t].minion, o);
    e := o.id.k;
  }

  lemma RecordedIsHeard(c: Config, run: Run, uid: nat, r: Request, i: nat, role: Role) returns (j: nat)
    requires ValidConfig(c) && RecordsShort(c, run, uid, r, i, role)
    ensures j < |Heard(run, |run.labels|, uid)| && IsAnswer(Heard(run, |run.labels|, uid)[j], i, role)
    ensures Heard(run, |run.labels|, uid)[j].message == MessageFor(Last(run).state[uid].segments[i], role)
    ensures i < |SegmentsOf(c, r)| && Last(run).state[uid].segments[i].length == SegmentsOf(c, r)[i].length
  {
    RunKeeps(c, run, |run.labels|);
    assert TaskOk(c, Last(run), uid);
    TicketIsHeard(c, run, |run.labels|, uid);
    j := RecordedWasHeard(Fresh(r.op, r.length, SegmentsOf(c, r)), Heard(run, |run.labels|, uid), i, role);
  }

  lemma ShortNeedsShorterFirst(c: Config, run: Run, uid: nat, r: Request, i: nat, role: Role)
    requires ValidConfig(c) && r.op == Read && RecordsShort(c, run, uid, r, i, role)
    ensures |SegmentsOf(c, r)| >= 2 && SegmentsOf(c, r)[0].length < SegmentsOf(c, r)[1].length
  {
    var j := RecordedIsHeard(c, run, uid, r, i, role);
    var e := HeardBytes(c, run, uid, r, j);
    SegmentOfSend(uid, i, role);
    ShorterBefore(c, r, e, SendOf(Callback(uid, i, role)));
  }

  lemma ReturnedIsRecorded(c: Config, run: Run, i: nat, r: Request, k: nat)
    requires ValidConfig(c) && r.op == Read && ReturnsShort(c, run, i, r, k)
    ensures CanRecordShort(c, r)
  {
    var uid := Last(run).replies[i].uid;
    var init := OkReadTicket(c, run, |run.labels|, i, uid, r);
    var role := ChosenRole(Last(run).state[uid].segments[k]);
    assert RecordsShort(c, run, uid, r, k, role);
  }

  /** A read can record an OK answer with fewer bytes than its segment, and can be answered
      without error from one, exactly if it has two or more segments and the first is
      shorter than the second. */
  lemma ShortAnswersExactly(c: Config, r: Request)
    requires ValidConfig(c) && Proper(c, r) && r.op == Read
    ensures var segs := SegmentsOf(c, r);
      && (CanRecordShort(c, r) <==> |segs| >= 2 && segs[0].length < segs[1].length)
      && (CanReturnShort(c, r) <==> |segs| >= 2 && segs[0].length < segs[1].length)
  {
    var segs := SegmentsOf(c, r);
    if |segs| >= 2 && segs[0].length < segs[1].length {
      Neighbours(c, r, 1);
      var run, i, data := WrongAnswer(c, r, SendTarget(c, r, 1), r.offset % c.chunk);
      assert ReturnsShort(c, run, i, r, 1);
      ReturnedIsRecorded(c, run, i, r, 1);
    } else {
      if CanRecordShort(c, r) {
        var run, uid: nat, i: nat, role: Role :| RecordsShort(c, run, uid, r, i, role);
        ShortNeedsShorterFirst(c, run, uid, r, i, role);
      }
      if CanReturnShort(c, r) {
        var run, i: nat, k: nat :| ReturnsShort(c, run, i, r, k);
        ReturnedIsRecorded(c, run, i, r, k);
      }
    }
  }

  // ----- The smallest of them -----------------------------------------------------------------------

  lemma ChunksAreSmall(c: Config, r: Request)
    requires ValidConfig(c) && c.chunk <= DELIVERABLE
    ensures SmallSlices(c, r)
  {
    forall i | 0 <= i < |SegmentsOf(c, r)|
      ensures SegmentsOf(c, r)[i].length <= DELIVERABLE
    {
      PieceBounds(r.offset, r.length, c.chunk, i);
    }
  }

  /** An unaligned request of two or more segments can be answered without error and in vain. */
  lemma UnalignedFails(c: Config, r: Request)
    requires ValidConfig(c) && Proper(c, r) && |SegmentsOf(c, r)| >= 2 && r.offset % c.chunk > 0
    ensures if r.op == Write then !WriteIsTruthful(c, r) else !ReadIsTruthful(c, r)
  {
    if r.op == Write {
      WriteIsTruthfulExactly(c, r);
    } else {
      ReadIsTruthfulExactly(c, r);
    }
  }

  lemma TwoPieces(c: Config, r: Request)
    requires c == Config(3, 2) && r.offset == 1 && 2 <= r.length <= 3 && |r.handle| == 8
    requires r.op == Write ==> |r.data| == r.length
    ensures ValidConfig(c) && Proper(c, r) && |SegmentsOf(c, r)| == 2 && r.offset % c.chunk > 0
    ensures SegmentsOf(c, r)[0].length == 1 && SegmentsOf(c, r)[1].length == r.length - 1
  {
    ChunksAreSmall(c, r);
    assert Count(1, r.length, 2) == 2;
  }

  /** On three minions of two bytes each, this is so of any write and any read of addresses 1
      and 2, and a read of addresses 1 to 3 can be answered from an answer one byte short. */
  lemma OnThreeMinions(c: Config, r: Request)
    requires c == Config(3, 2) && r.offset == 1 && 2 <= r.length <= 3 && |r.handle| == 8
    requires r.op == Write ==> |r.data| == r.length
    ensures ValidConfig(c)
    ensures if r.op == Write then !WriteIsTruthful(c, r) else !ReadIsTruthful(c, r)
    ensures r.op == Read && r.length == 3 ==> CanReturnShort(c, r)
  {
    TwoPieces(c, r);
    UnalignedFails(c, r);
    if r.op == Read {
      ShortAnswersExactly(c, r);
    }
  }
}
