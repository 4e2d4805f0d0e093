/** The completion logic of concrete/src/Ticket.cpp on values: which answers settle
    a request, what the verdict is, and what a successful read returns. */
module MirrorTicket {
  import opened Types
  import opened StripeSplitter

  /** What a ticket sees of a minion's answer: `GetResult` and `GetData`. */
  datatype Answer = Answer(ok: bool, data: Option<seq<Byte>>)

  datatype SegmentState = SegmentState(
    length: nat,
    bufferOffset: nat,
    primaryDone: bool,
    backupDone: bool,
    primaryMsg: Option<Answer>,
    backupMsg: Option<Answer>)

  datatype State = State(op: Op, totalLength: nat, segments: seq<SegmentState>, completed: bool)

  /** One call of `OnMirrorResponse`. */
  datatype Response = Response(segment: nat, role: Role, message: Option<Answer>)

  datatype TaskResult = TaskResult(uid: nat, result: bool, length: nat, buffer: Option<seq<Byte>>)

  function Fresh(op: Op, totalLength: nat, segs: seq<Segment>): State
  {
    State(op, totalLength,
          seq(|segs|, i requires 0 <= i < |segs| =>
            SegmentState(segs[i].length, segs[i].bufferOffset, false, false, None, None)),
          false)
  }

  predicate Ok(message: Option<Answer>)
  {
    message.Some? && message.value.ok
  }

  predicate Resolved(op: Op, seg: SegmentState)
  {
    if op == Write then seg.primaryDone && seg.backupDone
    else (seg.primaryDone && Ok(seg.primaryMsg)) || seg.backupDone
  }

  function Select(seg: SegmentState): Option<Answer>
  {
    if seg.primaryDone && Ok(seg.primaryMsg) then seg.primaryMsg
    else if seg.backupDone then seg.backupMsg
    else seg.primaryMsg
  }

  predicate Successful(op: Op, seg: SegmentState)
  {
    if op == Write then Ok(seg.primaryMsg) && Ok(seg.backupMsg) else Ok(Select(seg))
  }

  function Record(seg: SegmentState, role: Role, message: Option<Answer>): SegmentState
  {
    if role == Primary then seg.(primaryDone := true, primaryMsg := message)
    else seg.(backupDone := true, backupMsg := message)
  }

  function MessageFor(seg: SegmentState, role: Role): Option<Answer>
  {
    if role == Primary then seg.primaryMsg else seg.backupMsg
  }

  predicate AllResolved(t: State)
  {
    forall i | 0 <= i < |t.segments| :: Resolved(t.op, t.segments[i])
  }

  predicate Verdict(t: State)
  {
    forall i | 0 <= i < |t.segments| :: Successful(t.op, t.segments[i])
  }

  /** The ticket after one answer. */
  function Accept(t: State, r: Response): State
  {
    if t.completed || r.segment >= |t.segments| then t else
    var recorded := t.(segments := t.segments[r.segment := Record(t.segments[r.segment], r.role, r.message)]);
    recorded.(completed := AllResolved(recorded))
  }

  /** Whether the answer makes the ticket notify its dispatcher. */
  predicate Fires(t: State, r: Response)
  {
    !t.completed && Accept(t, r).completed
  }

  function Run(t: State, rs: seq<Response>): State
  {
    if rs == [] then t else Accept(Run(t, rs[..|rs| - 1]), rs[|rs| - 1])
  }

  // ----- At most one notification -------------------------------------------------

  function Notifications(t: State, rs: seq<Response>): nat
  {
    if rs == [] then 0
    else Notifications(t, rs[..|rs| - 1])
         + if Fires(Run(t, rs[..|rs| - 1]), rs[|rs| - 1]) then 1 else 0
  }

  /** Whatever answers arrive, in whatever order and however often, the dispatcher
      is notified once if the ticket completes and never otherwise; a completed
      ticket does not change any more. */
  lemma {:induction false} NotifiesAtMostOnce(t: State, rs: seq<Response>)
    ensures Notifications(t, rs) == if !t.completed && Run(t, rs).completed then 1 else 0
    ensures t.completed ==> Run(t, rs) == t
  {
    if rs != [] {
      NotifiesAtMostOnce(t, rs[..|rs| - 1]);
    }
  }

  // ----- What the answers say, independently of the ticket's fields --------------------

  predicate IsAnswer(r: Response, i: nat, role: Role)
  {
    r.segment == i && r.role == role
  }

  ghost predicate Answered(rs: seq<Response>, i: nat, role: Role)
  {
    exists k :: 0 <= k < |rs| && IsAnswer(rs[k], i, role)
  }

  ghost predicate AnsweredOk(rs: seq<Response>, i: nat, role: Role)
  {
    exists k :: 0 <= k < |rs| && IsAnswer(rs[k], i, role) && Ok(rs[k].message)
  }

  /** At most one answer for each mirror of each segment. */
  ghost predicate Distinct(rs: seq<Response>)
  {
    forall j, k | 0 <= j < k < |rs| :: rs[j].segment != rs[k].segment || rs[j].role != rs[k].role
  }

  lemma SameAnswer(rs: seq<Response>, j: nat, k: nat, i: nat, role: Role)
    requires Distinct(rs) && j < |rs| && k < |rs|
    requires IsAnswer(rs[j], i, role) && IsAnswer(rs[k], i, role)
    ensures j == k
  {
  }

  /** The answers that settle segment `i`. */
  ghost predicate Covered(op: Op, rs: seq<Response>, i: nat)
  {
    if op == Write then Answered(rs, i, Primary) && Answered(rs, i, Backup)
    else AnsweredOk(rs, i, Primary) || Answered(rs, i, Backup)
  }

  ghost predicate Settled(op: Op, rs: seq<Response>, count: nat)
  {
    forall i | 0 <= i < count :: Covered(op, rs, i)
  }

  ghost predicate SomeMirrorOk(rs: seq<Response>, i: nat)
  {
    AnsweredOk(rs, i, Primary) || AnsweredOk(rs, i, Backup)
  }

  ghost predicate EveryMirrorPairOk(rs: seq<Response>, count: nat)
  {
    forall i | 0 <= i < count :: SomeMirrorOk(rs, i)
  }

  /** The length of the shortest prefix that settles every segment. */
  ghost function SettledAt(op: Op, rs: seq<Response>, count: nat): (k: nat)
    ensures k <= |rs|
  {
    if rs != [] && Settled(op, rs[..|rs| - 1], count) then SettledAt(op, rs[..|rs| - 1], count)
    else |rs|
  }

  lemma AnsweredSnoc(rs: seq<Response>, i: nat, role: Role)
    requires rs != []
    ensures var init, last := rs[..|rs| - 1], rs[|rs| - 1];
      && (Answered(rs, i, role) <==> Answered(init, i, role) || IsAnswer(last, i, role))
      && (AnsweredOk(rs, i, role) <==>
            AnsweredOk(init, i, role) || (IsAnswer(last, i, role) && Ok(last.message)))
  {
    var init := rs[..|rs| - 1];
    forall k | 0 <= k < |init|
      ensures rs[k] == init[k]
    {
    }
    if Answered(init, i, role) {
      var k :| 0 <= k < |init| && IsAnswer(init[k], i, role);
      assert IsAnswer(rs[k], i, role);
    }
    if AnsweredOk(init, i, role) {
      var k :| 0 <= k < |init| && IsAnswer(init[k], i, role) && Ok(init[k].message);
      assert IsAnswer(rs[k], i, role);
    }
    if IsAnswer(rs[|rs| - 1], i, role) {
      assert 0 <= |rs| - 1 < |rs|;
    }
  }

  /** Segment state `seg` holds exactly what `rs` says about segment `i`. */
  ghost predicate Records(seg: SegmentState, rs: seq<Response>, i: nat)
  {
    && (seg.primaryDone <==> Answered(rs, i, Primary))
    && (seg.backupDone <==> Answered(rs, i, Backup))
    && (Ok(seg.primaryMsg) <==> AnsweredOk(rs, i, Primary))
    && (Ok(seg.backupMsg) <==> AnsweredOk(rs, i, Backup))
    && forall k | 0 <= k < |rs| && rs[k].segment == i :: MessageFor(seg, rs[k].role) == rs[k].message
  }

  ghost predicate AllRecord(t: State, rs: seq<Response>)
  {
    forall i | 0 <= i < |t.segments| :: Records(t.segments[i], rs, i)
  }

  lemma OkIsAnswer(rs: seq<Response>, i: nat, role: Role)
    ensures AnsweredOk(rs, i, role) ==> Answered(rs, i, role)
  {
  }

  lemma ResolvedIsCovered(op: Op, seg: SegmentState, rs: seq<Response>, i: nat)
    requires Records(seg, rs, i)
    ensures Resolved(op, seg) <==> Covered(op, rs, i)
  {
    OkIsAnswer(rs, i, Primary);
  }

  /** Recording the last answer keeps the fields equal to what the answers say. */
  lemma RecordKeeps(seg: SegmentState, rs: seq<Response>, i: nat)
    requires rs != [] && Distinct(rs) && Records(seg, rs[..|rs| - 1], i)
    ensures var last := rs[|rs| - 1];
      Records(if last.segment == i then Record(seg, last.role, last.message) else seg, rs, i)
  {
    var last := rs[|rs| - 1];
    AnsweredSnoc(rs, i, Primary);
    AnsweredSnoc(rs, i, Backup);
    if last.segment == i {
      FirstOfItsKind(rs);
      OkIsAnswer(rs[..|rs| - 1], i, last.role);
    }
  }

  lemma FirstOfItsKind(rs: seq<Response>)
    requires rs != [] && Distinct(rs)
    ensures !Answered(rs[..|rs| - 1], rs[|rs| - 1].segment, rs[|rs| - 1].role)
  {
  }

  lemma SettledSnoc(op: Op, rs: seq<Response>, count: nat)
    requires rs != []
    ensures Settled(op, rs[..|rs| - 1], count) ==> Settled(op, rs, count)
    ensures rs[|rs| - 1].segment >= count ==>
      (Settled(op, rs[..|rs| - 1], count) <==> Settled(op, rs, count))
  {
    var init, other := rs[..|rs| - 1], rs[|rs| - 1].segment >= count;
    forall i | 0 <= i < count
      ensures Covered(op, init, i) ==> Covered(op, rs, i)
      ensures other && Covered(op, rs, i) ==> Covered(op, init, i)
    {
      AnsweredSnoc(rs, i, Primary);
      AnsweredSnoc(rs, i, Backup);
    }
    if other && Settled(op, rs, count) {
      forall i | 0 <= i < count
        ensures Covered(op, init, i)
      {
        assert Covered(op, rs, i);
      }
    }
  }

  /** A ticket that gets at most one answer per mirror completes exactly when the
      answers settle every segment (a ticket without segments never does), at the
      first answer for which that holds, and keeps what was recorded by then. */
  lemma {:induction false} Completion(op: Op, total: nat, segs: seq<Segment>, rs: seq<Response>)
    requires Distinct(rs)
    ensures var t := Run(Fresh(op, total, segs), rs);
      && t.op == op && t.totalLength == total && |t.segments| == |segs|
      && (t.completed <==> |segs| > 0 && Settled(op, rs, |segs|))
      && AllRecord(t, if t.completed then rs[..SettledAt(op, rs, |segs|)] else rs)
  {
    if rs != [] {
      var init, last := rs[..|rs| - 1], rs[|rs| - 1];
      assert Distinct(init);
      Completion(op, total, segs, init);
      SettledSnoc(op, rs, |segs|);
      var t := Run(Fresh(op, total, segs), init);
      if t.completed {
        assert rs[..SettledAt(op, rs, |segs|)] == init[..SettledAt(op, init, |segs|)];
      } else {
        AcceptStep(t, rs);
        assert rs[..|rs|] == rs;
      }
    } else {
      assert |segs| > 0 ==> !Covered(op, rs, 0);
    }
  }

  lemma AcceptStep(t: State, rs: seq<Response>)
    requires rs != [] && Distinct(rs) && !t.completed && AllRecord(t, rs[..|rs| - 1])
    ensures AllRecord(Accept(t, rs[|rs| - 1]), rs)
    ensures rs[|rs| - 1].segment < |t.segments| ==>
      (Accept(t, rs[|rs| - 1]).completed <==> Settled(t.op, rs, |t.segments|))
  {
    var last := rs[|rs| - 1];
    var t' := Accept(t, last);
    forall i | 0 <= i < |t'.segments|
      ensures Records(t'.segments[i], rs, i)
      ensures Resolved(t.op, t'.segments[i]) <==> Covered(t.op, rs, i)
    {
      RecordKeeps(t.segments[i], rs, i);
      ResolvedIsCovered(t.op, t'.segments[i], rs, i);
    }
    if last.segment < |t.segments| {
      assert t'.completed <==> AllResolved(t.(segments := t'.segments));
    }
  }

  // ----- READ: fail-over ---------------------------------------------------------------

  /** A read succeeds exactly when, at the answer that settled it, every segment
      had an OK answer from one of its mirrors. */
  lemma ReadVerdict(total: nat, segs: seq<Segment>, rs: seq<Response>)
    requires Distinct(rs) && |segs| > 0 && Settled(Read, rs, |segs|)
    ensures var t := Run(Fresh(Read, total, segs), rs);
      && t.completed
      && (Verdict(t) <==> EveryMirrorPairOk(rs[..SettledAt(Read, rs, |segs|)], |segs|))
  {
    Completion(Read, total, segs, rs);
    var t := Run(Fresh(Read, total, segs), rs);
    var seen := rs[..SettledAt(Read, rs, |segs|)];
    forall i | 0 <= i < |segs|
      ensures Successful(Read, t.segments[i]) <==> SomeMirrorOk(seen, i)
    {
      assert Records(t.segments[i], seen, i);
      OkIsAnswer(seen, i, Primary);
      OkIsAnswer(seen, i, Backup);
      SettledAtSettles(Read, rs, |segs|);
      ResolvedIsCovered(Read, t.segments[i], seen, i);
    }
    if Verdict(t) {
      forall i | 0 <= i < |segs| ensures SomeMirrorOk(seen, i) {
        assert Successful(Read, t.segments[i]);
      }
    }
  }

  lemma {:induction false} SettledAtSettles(op: Op, rs: seq<Response>, count: nat)
    requires Settled(op, rs, count)
    ensures Settled(op, rs[..SettledAt(op, rs, count)], count)
    ensures forall k | 0 <= k < SettledAt(op, rs, count) :: !Settled(op, rs[..k], count)
  {
    if rs != [] && Settled(op, rs[..|rs| - 1], count) {
      var init := rs[..|rs| - 1];
      SettledAtSettles(op, init, count);
      var m := SettledAt(op, init, count);
      assert rs[..m] == init[..m];
      forall k | 0 <= k < m
        ensures !Settled(op, rs[..k], count)
      {
        assert rs[..k] == init[..k];
      }
    } else {
      assert rs[..|rs|] == rs;
      forall k | 0 <= k < |rs|
        ensures !Settled(op, rs[..k], count)
      {
        if Settled(op, rs[..k], count) {
          SettledGrows(op, rs, k, |rs| - 1, count);
        }
      }
    }
  }

  lemma AnsweredGrows(rs: seq<Response>, k: nat, m: nat, i: nat, role: Role)
    requires k <= m <= |rs|
    ensures Answered(rs[..k], i, role) ==> Answered(rs[..m], i, role)
    ensures AnsweredOk(rs[..k], i, role) ==> AnsweredOk(rs[..m], i, role)
  {
    if Answered(rs[..k], i, role) {
      var j :| 0 <= j < k && IsAnswer(rs[..k][j], i, role);
      assert IsAnswer(rs[..m][j], i, role);
    }
    if AnsweredOk(rs[..k], i, role) {
      var j :| 0 <= j < k && IsAnswer(rs[..k][j], i, role) && Ok(rs[..k][j].message);
      assert IsAnswer(rs[..m][j], i, role);
    }
  }

  lemma SettledGrows(op: Op, rs: seq<Response>, k: nat, m: nat, count: nat)
    requires k <= m <= |rs| && Settled(op, rs[..k], count)
    ensures Settled(op, rs[..m], count)
  {
    forall i | 0 <= i < count
      ensures Covered(op, rs[..m], i)
    {
      assert Covered(op, rs[..k], i);
      AnsweredGrows(rs, k, m, i, Primary);
      AnsweredGrows(rs, k, m, i, Backup);
    }
  }

  /** The mirror `role` of segment `i` answered before position `k`. */
  ghost predicate PrimariesFirst(rs: seq<Response>)
  {
    forall k | 0 <= k < |rs| && rs[k].role == Backup :: Answered(rs[..k], rs[k].segment, Primary)
  }

  /** An OK answer of the primary of `i` that comes after the read was settled by
      the failed backup of `i`. */
  ghost predicate LatePrimary(rs: seq<Response>, settled: nat, i: nat)
    requires settled <= |rs|
  {
    && AnsweredOk(rs, i, Primary)
    && !AnsweredOk(rs[..settled], i, Primary)
    && Answered(rs[..settled], i, Backup)
    && !AnsweredOk(rs[..settled], i, Backup)
  }

  lemma OkAnswerIsUnique(rs: seq<Response>, k: nat, i: nat, role: Role)
    requires Distinct(rs) && k <= |rs| && Answered(rs[..k], i, role)
    ensures AnsweredOk(rs, i, role) <==> AnsweredOk(rs[..k], i, role)
  {
    var j :| 0 <= j < k && IsAnswer(rs[..k][j], i, role);
    assert rs[..k][j] == rs[j];
    if AnsweredOk(rs, i, role) {
      var m :| 0 <= m < |rs| && IsAnswer(rs[m], i, role) && Ok(rs[m].message);
      SameAnswer(rs, j, m, i, role);
      assert Ok(rs[..k][j].message);
    }
    assert rs[..|rs|] == rs;
    AnsweredGrows(rs, k, |rs|, i, role);
  }

  /** "Some mirror of every segment is OK, so the read succeeds" is false exactly
      for the orders in which an OK primary comes after the read was settled by its
      failed backup. */
  lemma FailoverExact(total: nat, segs: seq<Segment>, rs: seq<Response>)
    requires Distinct(rs) && |segs| > 0 && Settled(Read, rs, |segs|)
    ensures var t := Run(Fresh(Read, total, segs), rs);
      (Verdict(t) <==> EveryMirrorPairOk(rs, |segs|)) <==>
      !(EveryMirrorPairOk(rs, |segs|) &&
        exists i :: 0 <= i < |segs| && LatePrimary(rs, SettledAt(Read, rs, |segs|), i))
  {
    ReadVerdict(total, segs, rs);
    var k := SettledAt(Read, rs, |segs|);
    SettledAtSettles(Read, rs, |segs|);
    assert rs[..|rs|] == rs;
    forall i | 0 <= i < |segs|
      ensures SomeMirrorOk(rs[..k], i) ==> SomeMirrorOk(rs, i) && !LatePrimary(rs, k, i)
      ensures SomeMirrorOk(rs, i) && !SomeMirrorOk(rs[..k], i) ==> LatePrimary(rs, k, i)
    {
      AnsweredGrows(rs, k, |rs|, i, Primary);
      AnsweredGrows(rs, k, |rs|, i, Backup);
      assert Covered(Read, rs[..k], i);
      if Answered(rs[..k], i, Backup) {
        OkAnswerIsUnique(rs, k, i, Backup);
      }
    }
    if EveryMirrorPairOk(rs, |segs|) && !EveryMirrorPairOk(rs[..k], |segs|) {
      var i :| 0 <= i < |segs| && !SomeMirrorOk(rs[..k], i);
      assert SomeMirrorOk(rs, i);
      assert LatePrimary(rs, k, i);
    }
    if EveryMirrorPairOk(rs[..k], |segs|) {
      forall i | 0 <= i < |segs|
        ensures SomeMirrorOk(rs, i) && !LatePrimary(rs, k, i)
      {
        assert SomeMirrorOk(rs[..k], i);
      }
    }
  }

  /** If every primary answers before its backup, the verdict is exactly "every
      segment has an OK mirror", however the segments interleave. */
  lemma FailoverPrimariesFirst(total: nat, segs: seq<Segment>, rs: seq<Response>)
    requires Distinct(rs) && |segs| > 0 && Settled(Read, rs, |segs|) && PrimariesFirst(rs)
    ensures Verdict(Run(Fresh(Read, total, segs), rs)) <==> EveryMirrorPairOk(rs, |segs|)
  {
    FailoverExact(total, segs, rs);
    var k := SettledAt(Read, rs, |segs|);
    if i: nat :| i < |segs| && LatePrimary(rs, k, i) {
      var j :| 0 <= j < k && IsAnswer(rs[..k][j], i, Backup);
      assert rs[j] == rs[..k][j];
      assert Answered(rs[..j], i, Primary);
      AnsweredGrows(rs, j, k, i, Primary);
      OkAnswerIsUnique(rs, k, i, Primary);
      assert false;
    }
  }

  /** The order matters: a failed backup that answers first loses a readable segment. */
  lemma FailedBackupFirst(data: seq<Byte>)
    ensures var segs := [Segment(0, |data|, 0, 0, 1)];
      var failed := Response(0, Backup, Some(Answer(false, None)));
      var good := Response(0, Primary, Some(Answer(true, Some(data))));
      && !Verdict(Run(Fresh(Read, |data|, segs), [failed, good]))
      && Verdict(Run(Fresh(Read, |data|, segs), [good, failed]))
  {
    var segs := [Segment(0, |data|, 0, 0, 1)];
    var failed := Response(0, Backup, Some(Answer(false, None)));
    var good := Response(0, Primary, Some(Answer(true, Some(data))));
    var t := Fresh(Read, |data|, segs);
    assert [failed, good][..1] == [failed] && [good, failed][..1] == [good];
    assert [failed][..0] == [] && [good][..0] == [];
    assert Run(t, [failed]) == Accept(t, failed);
    assert Run(t, [good]) == Accept(t, good);
    assert Accept(t, failed).segments[0].backupDone;
    assert !Successful(Read, Accept(t, failed).segments[0]);
  }

  // ----- WRITE: both mirrors ---------------------------------------------------------------

  /** Exactly one answer from each mirror of each of `count` segments. */
  ghost predicate FullSet(rs: seq<Response>, count: nat)
  {
    && Distinct(rs)
    && (forall k | 0 <= k < |rs| :: rs[k].segment < count)
    && (forall i | 0 <= i < count :: Answered(rs, i, Primary) && Answered(rs, i, Backup))
  }

  ghost predicate EveryAnswerOk(rs: seq<Response>)
  {
    forall r | r in rs :: Ok(r.message)
  }

  /** For every order of the answers a write completes precisely at the last one,
      and succeeds exactly when every answer is OK. */
  lemma WriteVerdict(total: nat, segs: seq<Segment>, rs: seq<Response>)
    requires |segs| > 0 && FullSet(rs, |segs|)
    ensures Run(Fresh(Write, total, segs), rs).completed
    ensures forall k | 0 <= k < |rs| :: !Run(Fresh(Write, total, segs), rs[..k]).completed
    ensures Verdict(Run(Fresh(Write, total, segs), rs)) <==> EveryAnswerOk(rs)
  {
    Completion(Write, total, segs, rs);
    forall k | 0 <= k < |rs|
      ensures !Settled(Write, rs[..k], |segs|)
      ensures !Run(Fresh(Write, total, segs), rs[..k]).completed
    {
      LastAnswerMissing(rs, k, |segs|);
      Completion(Write, total, segs, rs[..k]);
    }
    SettledAtSettles(Write, rs, |segs|);
    assert rs[..SettledAt(Write, rs, |segs|)] == rs;
    WriteSuccess(Run(Fresh(Write, total, segs), rs), rs);
  }

  lemma LastAnswerMissing(rs: seq<Response>, k: nat, count: nat)
    requires FullSet(rs, count) && k < |rs|
    ensures !Settled(Write, rs[..k], count)
  {
    var last := rs[|rs| - 1];
    FirstOfItsKind(rs);
    AnsweredGrows(rs, k, |rs| - 1, last.segment, last.role);
    assert !Covered(Write, rs[..k], last.segment);
  }

  lemma WriteSuccess(t: State, rs: seq<Response>)
    requires t.op == Write && FullSet(rs, |t.segments|) && AllRecord(t, rs)
    ensures Verdict(t) <==> EveryAnswerOk(rs)
  {
    if EveryAnswerOk(rs) {
      forall i | 0 <= i < |t.segments|
        ensures Successful(Write, t.segments[i])
      {
        assert Records(t.segments[i], rs, i);
        var j :| 0 <= j < |rs| && IsAnswer(rs[j], i, Primary);
        var k :| 0 <= k < |rs| && IsAnswer(rs[k], i, Backup);
        assert rs[j] in rs && rs[k] in rs;
      }
    }
    if Verdict(t) {
      forall r | r in rs
        ensures Ok(r.message)
      {
        var k :| 0 <= k < |rs| && rs[k] == r;
        assert Records(t.segments[r.segment], rs, r.segment);
        assert Successful(Write, t.segments[r.segment]);
        var m :| 0 <= m < |rs| && IsAnswer(rs[m], r.segment, r.role) && Ok(rs[m].message);
        SameAnswer(rs, k, m, r.segment, r.role);
      }
    }
  }

  /** The verdict of a write does not depend on the order of its answers. */
  lemma WriteOrderIrrelevant(total: nat, segs: seq<Segment>, rs: seq<Response>, rs': seq<Response>)
    requires |segs| > 0 && FullSet(rs, |segs|) && FullSet(rs', |segs|)
    requires multiset(rs) == multiset(rs')
    ensures Verdict(Run(Fresh(Write, total, segs), rs)) == Verdict(Run(Fresh(Write, total, segs), rs'))
  {
    WriteVerdict(total, segs, rs);
    WriteVerdict(total, segs, rs');
    forall r
      ensures r in rs <==> r in rs'
    {
      assert r in multiset(rs) <==> r in multiset(rs');
    }
  }
}
