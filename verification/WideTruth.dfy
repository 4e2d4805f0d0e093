/** When a reply without error tells the truth in every run: which answers a callback can get
    at all, and for which requests each of them serves. */
module WideTruth {
  import opened Types
  import opened Arithmetic
  import opened StripeSplitter
  import opened MinionManager
  import opened MasterProxies
  import opened RaidSystem
  import opened RaidOrigin
  import opened RaidSafety
  import opened RaidTickets
  import opened WideCallbacks
  import opened WideReplies

  // ----- Which answers a callback can get ----------------------------------------------------------

  lemma WaiterSent(c: Config, s: System, m: nat, call: Callback)
    requires ValidConfig(c) && WaitsAt(s, m, call) && WaitsAtTarget(c, s, m, call.ticket)
    ensures call == NewCallback(call.ticket, SendOf(call)) && Sent(s, call.ticket, SendOf(call))
    ensures SendOf(call) < 2 * |SegmentsOf(c, s.tasks[call.ticket].request)|
    ensures m == SendTarget(c, s.tasks[call.ticket].request, SendOf(call))
  {
    TargetIs(c, s.tasks[call.ticket].request, call.ticket, SendOf(call));
  }

  lemma GenuineSent(c: Config, run: Run, t: nat, m: nat, o: Origin)
    requires ValidConfig(c) && |run.states| == |run.labels| + 1 && t < |run.states| && Genuine(c, run, t, m, o)
    ensures Sent(run.states[t], o.id.uid, o.id.k)
    ensures var r := run.states[t].tasks[o.id.uid].request;
      && o.id.k < 2 * |SegmentsOf(c, r)| && r.offset + r.length <= c.n * c.chunk
      && m == SendTarget(c, r, o.id.k)
  {
    SendGoesThere(c, run.states[t], m, o.id);
  }

  /** A callback only ever gets the answer to its own message, or to an earlier one that
      collides with it. */
  lemma AnswerIsOwnOrColliding(c: Config, run: Run, t: nat) returns (o: Origin)
    requires ValidConfig(c) && IsRun(c, run) && t < |run.labels| && FiredBy(run.states[t], run.labels[t]).Some?
    ensures var (call, answer) := FiredBy(run.states[t], run.labels[t]).value;
      && Genuine(c, run, t, run.labels[t].minion, o) && o.id.uid == call.ticket && AnswerOf(o.answer) == Some(answer)
      && call.ticket in run.states[t].tasks
      && var r := run.states[t].tasks[call.ticket].request;
         && o.id.k <= SendOf(call) < 2 * |SegmentsOf(c, r)|
         && SendTarget(c, r, o.id.k) == SendTarget(c, r, SendOf(call))
         && (o.id.k == SendOf(call) || Collide(c.n, o.id.k, SendOf(call)))
  {
    var (call, answer) := FiredBy(run.states[t], run.labels[t]).value;
    CallbackGetsOwnAnswer(c, run, t);
    o :| Genuine(c, run, t, run.labels[t].minion, o) && o.id.uid == call.ticket && AnswerOf(o.answer) == Some(answer);
    GenuineSent(c, run, t, run.labels[t].minion, o);
    WaiterSent(c, run.states[t], run.labels[t].minion, call);
    NotFromLater(c, run, t, call, o.id.k);
  }

  lemma NotFromLater(c: Config, run: Run, t: nat, call: Callback, e: nat)
    requires ValidConfig(c) && IsRun(c, run) && FiredAt(run, t, call) && call == NewCallback(call.ticket, SendOf(call))
    requires Sent(run.states[t], call.ticket, e)
    requires var r := run.states[t].tasks[call.ticket].request;
      && e < 2 * |SegmentsOf(c, r)| && SendOf(call) < 2 * |SegmentsOf(c, r)|
      && r.offset + r.length <= c.n * c.chunk && SendTarget(c, r, e) == SendTarget(c, r, SendOf(call))
    ensures e == SendOf(call) || (e < SendOf(call) && Collide(c.n, e, SendOf(call)))
  {
    if e > SendOf(call) {
      FiresInTime(c, run, t, call.ticket, SendOf(call));
      assert Overtakes(c, run.states[t].tasks[call.ticket], SendOf(call), e);
    } else if e < SendOf(call) {
      CollidingSends(c, run.states[t].tasks[call.ticket].request, e, SendOf(call));
    }
  }

  /** For every two sends that collide, the answer to the earlier serves for the later. */
  ghost predicate Interchangeable(c: Config, r: Request)
    requires ValidConfig(c)
  {
    forall e: nat, k: nat | e < k < 2 * |SegmentsOf(c, r)| && Collide(c.n, e, k) && SendTarget(c, r, e) == SendTarget(c, r, k)
      :: Serves(c, r, e, k)
  }

  lemma AlwaysMatched(c: Config, run: Run, now: nat, uid: nat, r: Request)
    requires ValidConfig(c) && IsRun(c, run) && now < |run.states| && Interchangeable(c, r)
    requires uid in run.states[now].tasks && run.states[now].tasks[uid].request == r
    ensures Matched(c, run, now, uid, r)
  {
    forall t: nat | t < now && FiredBy(run.states[t], run.labels[t]).Some?
                    && FiredBy(run.states[t], run.labels[t]).value.0.ticket == uid
      ensures GotServingAnswer(c, run, t, r)
    {
      var o := AnswerIsOwnOrColliding(c, run, t);
      RequestStays(c, run, t, now, uid);
      var k := SendOf(FiredBy(run.states[t], run.labels[t]).value.0);
      assert o.id.k == k || Serves(c, r, o.id.k, k);
    }
  }

  // ----- What a reply without error is for ---------------------------------------------------------

  /** In state `now` of the run, reply `i` says without error that request `r` is done. */
  ghost predicate SaysOk(c: Config, run: Run, now: nat, i: nat, r: Request)
    requires ValidConfig(c)
  {
    && IsRun(c, run) && now < |run.states| && i < |run.states[now].replies|
    && var reply := run.states[now].replies[i];
       reply.error == 0 && reply.uid in run.states[now].tasks && run.states[now].tasks[reply.uid].request == r
  }

  /** Before the reply, both mirrors of every segment have stored exactly its bytes. */
  ghost predicate AllStored(c: Config, run: Run, now: nat, i: nat, r: Request)
    requires ValidConfig(c) && SaysOk(c, run, now, i, r)
  {
    forall k: nat | k < 2 * |SegmentsOf(c, r)| :: SliceStored(c, run, now, run.states[now].replies[i].uid, r, k)
  }

  /** The bytes of the reply that belong to a segment were held by one of its mirrors
      between the request and the reply. */
  ghost predicate Returned(c: Config, run: Run, now: nat, i: nat, r: Request, k: nat)
    requires ValidConfig(c) && SaysOk(c, run, now, i, r) && k < |SegmentsOf(c, r)|
  {
    var seg, reply := SegmentsOf(c, r)[k], run.states[now].replies[i];
    && seg.bufferOffset + seg.length <= |reply.payload|
    && SegmentHeld(c, run, now, reply.uid, r, k, reply.payload[seg.bufferOffset..seg.bufferOffset + seg.length])
  }

  ghost predicate AllReturned(c: Config, run: Run, now: nat, i: nat, r: Request)
    requires ValidConfig(c) && SaysOk(c, run, now, i, r)
  {
    && |run.states[now].replies[i].payload| == r.length
    && forall k: nat | k < |SegmentsOf(c, r)| :: Returned(c, run, now, i, r, k)
  }

  /** A reply without error to this write is true, however the run goes. */
  ghost predicate WriteIsTruthful(c: Config, r: Request)
    requires ValidConfig(c)
  {
    forall run, now: nat, i: nat | SaysOk(c, run, now, i, r) :: AllStored(c, run, now, i, r)
  }

  ghost predicate ReadIsTruthful(c: Config, r: Request)
    requires ValidConfig(c)
  {
    forall run, now: nat, i: nat | SaysOk(c, run, now, i, r) :: AllReturned(c, run, now, i, r)
  }

  lemma InterchangeableWrite(c: Config, r: Request)
    requires ValidConfig(c) && r.op == Write && Interchangeable(c, r)
    ensures WriteIsTruthful(c, r)
  {
    forall run, now: nat, i: nat | SaysOk(c, run, now, i, r)
      ensures AllStored(c, run, now, i, r)
    {
      var uid := run.states[now].replies[i].uid;
      AlwaysMatched(c, run, now, uid, r);
      forall k: nat | k < 2 * |SegmentsOf(c, r)|
        ensures SliceStored(c, run, now, uid, r, k)
      {
        WideWriteReplySafe(c, run, now, i, uid, r, k);
      }
    }
  }

  lemma MatchedSegmentReturns(c: Config, run: Run, now: nat, i: nat, r: Request, uid: nat, k: nat, seg: Segment)
    requires ValidConfig(c) && r.op == Read && SaysOk(c, run, now, i, r) && k < |SegmentsOf(c, r)|
    requires uid == run.states[now].replies[i].uid && Matched(c, run, now, uid, r) && seg == SegmentsOf(c, r)[k]
    ensures Returned(c, run, now, i, r, k) && |run.states[now].replies[i].payload| == r.length
  {
    WideReadReplySafe(c, run, now, i, uid, r, k, seg);
  }

  lemma MatchedReadReturns(c: Config, run: Run, now: nat, i: nat, r: Request, uid: nat)
    requires ValidConfig(c) && r.op == Read && SaysOk(c, run, now, i, r) && |SegmentsOf(c, r)| > 0
    requires uid == run.states[now].replies[i].uid && Matched(c, run, now, uid, r)
    ensures AllReturned(c, run, now, i, r)
  {
    MatchedSegmentReturns(c, run, now, i, r, uid, 0, SegmentsOf(c, r)[0]);
    forall k: nat | k < |SegmentsOf(c, r)|
      ensures Returned(c, run, now, i, r, k)
    {
      MatchedSegmentReturns(c, run, now, i, r, uid, k, SegmentsOf(c, r)[k]);
    }
  }

  lemma InterchangeableRead(c: Config, r: Request)
    requires ValidConfig(c) && r.op == Read && r.length > 0 && Interchangeable(c, r)
    ensures ReadIsTruthful(c, r)
  {
    SegmentsTile(r.offset, r.length, c.chunk, c.n);
    forall run, now: nat, i: nat | SaysOk(c, run, now, i, r)
      ensures AllReturned(c, run, now, i, r)
    {
      AlwaysMatched(c, run, now, run.states[now].replies[i].uid, r);
      MatchedReadReturns(c, run, now, i, r, run.states[now].replies[i].uid);
    }
  }

  // ----- Requests whose colliding sends are interchangeable ----------------------------------------

  lemma OneSegmentServes(c: Config, r: Request)
    requires ValidConfig(c) && |SegmentsOf(c, r)| == 1
    ensures Interchangeable(c, r)
  {
  }

  /** Segments of an aligned request start at local address 0, and all but the last fill
      their chunk. */
  lemma AlignedSegment(c: Config, r: Request, i: nat)
    requires ValidConfig(c) && r.offset % c.chunk == 0 && i < |SegmentsOf(c, r)|
    ensures SegmentsOf(c, r)[i].localOffset == 0 && SegmentsOf(c, r)[i].length <= c.chunk
    ensures i + 1 < |SegmentsOf(c, r)| ==> SegmentsOf(c, r)[i].length == c.chunk
  {
    PieceBounds(r.offset, r.length, c.chunk, i);
  }

  lemma AlignedReadServes(c: Config, r: Request)
    requires ValidConfig(c) && r.op == Read && r.offset % c.chunk == 0
    ensures Interchangeable(c, r)
  {
    forall e: nat, k: nat | e < k < 2 * |SegmentsOf(c, r)| && Collide(c.n, e, k) && SendTarget(c, r, e) == SendTarget(c, r, k)
      ensures Serves(c, r, e, k)
    {
      AlignedSegment(c, r, e / 2);
      AlignedSegment(c, r, k / 2);
    }
  }

  /** The write fills whole chunks, each with the same bytes as the one before. */
  ghost predicate Repeats(c: Config, r: Request)
    requires ValidConfig(c)
  {
    && r.offset % c.chunk == 0 && r.length % c.chunk == 0
    && forall k: nat | c.chunk <= k < r.length && k < |r.data| :: r.data[k] == r.data[k - c.chunk]
  }

  /** The piece behind segment `i` starts where that one ends. */
  lemma NextPiece(c: Config, r: Request, i: nat)
    requires ValidConfig(c) && i + 1 < |SegmentsOf(c, r)|
    ensures SegmentsOf(c, r)[i + 1].bufferOffset == SegmentsOf(c, r)[i].bufferOffset + SegmentsOf(c, r)[i].length
  {
    SegmentsTile(r.offset, r.length, c.chunk, c.n);
  }

  lemma LastPieceEnds(c: Config, r: Request, i: nat)
    requires ValidConfig(c) && i + 1 == |SegmentsOf(c, r)|
    ensures SegmentsOf(c, r)[i].bufferOffset + SegmentsOf(c, r)[i].length == r.length
  {
    SegmentsTile(r.offset, r.length, c.chunk, c.n);
  }

  lemma AlignedStart(c: Config, r: Request, i: nat)
    requires ValidConfig(c) && r.offset % c.chunk == 0 && i < |SegmentsOf(c, r)|
    ensures SegmentsOf(c, r)[i].bufferOffset == i * c.chunk
  {
    if i == 0 {
      assert BufferStart(r.offset, c.chunk, 0) == 0;
    } else {
      assert BufferStart(r.offset, c.chunk, i) == i * c.chunk - 0;
    }
  }

  /** The last segment of an aligned request fills its chunk exactly if the request is made
      of whole chunks. */
  lemma LastIsWhole(c: Config, r: Request, i: nat)
    requires ValidConfig(c) && r.offset % c.chunk == 0 && i + 1 == |SegmentsOf(c, r)|
    ensures SegmentsOf(c, r)[i].length == c.chunk <==> r.length % c.chunk == 0
  {
    var size := SegmentsOf(c, r)[i].length;
    AlignedStart(c, r, i);
    AlignedSegment(c, r, i);
    LastPieceEnds(c, r, i);
    PieceBounds(r.offset, r.length, c.chunk, i);
    if size < c.chunk {
      DivModUnique(r.length, c.chunk, i, size);
    } else {
      Distribute(i, 1, c.chunk);
      DivModUnique(r.length, c.chunk, i + 1, 0);
    }
  }

  lemma WholeSegment(c: Config, r: Request, i: nat)
    requires ValidConfig(c) && r.offset % c.chunk == 0 && r.length % c.chunk == 0 && i < |SegmentsOf(c, r)|
    ensures SegmentsOf(c, r)[i].length == c.chunk && SegmentsOf(c, r)[i].localOffset == 0
  {
    AlignedSegment(c, r, i);
    if i + 1 == |SegmentsOf(c, r)| {
      LastIsWhole(c, r, i);
    }
  }

  /** The slices of a write that repeats are all the same. */
  lemma {:induction false} SameSlices(c: Config, r: Request, i: nat)
    requires ValidConfig(c) && ValidRequest(r) && r.op == Write && Repeats(c, r) && i < |SegmentsOf(c, r)|
    requires BufferFits(Write, SegmentsOf(c, r), r.data)
    ensures Slice(r.data, SegmentsOf(c, r)[i]) == Slice(r.data, SegmentsOf(c, r)[0])
  {
    if i > 0 {
      SameSlices(c, r, i - 1);
      NextPiece(c, r, i - 1);
      WholeSegment(c, r, i - 1);
      WholeSegment(c, r, i);
      SlicesEqual(r.data, SegmentsOf(c, r)[i - 1], SegmentsOf(c, r)[i], c.chunk);
    }
  }

  lemma SlicesEqual(data: seq<Byte>, a: Segment, b: Segment, chunk: nat)
    requires a.length == b.length == chunk && b.bufferOffset == a.bufferOffset + chunk
    requires b.bufferOffset + chunk <= |data|
    requires forall k: nat | chunk <= k < |data| :: data[k] == data[k - chunk]
    ensures Slice(data, a) == Slice(data, b)
  {
    forall l | 0 <= l < chunk
      ensures Slice(data, a)[l] == Slice(data, b)[l]
    {
      assert data[b.bufferOffset + l] == data[b.bufferOffset + l - chunk];
    }
  }

  lemma RepeatingWriteServes(c: Config, r: Request)
    requires ValidConfig(c) && ValidRequest(r) && r.op == Write && Repeats(c, r)
    ensures Interchangeable(c, r)
  {
    SegmentsFit(Write, r.offset, r.length, c.chunk, c.n, r.data);
    forall e: nat, k: nat | e < k < 2 * |SegmentsOf(c, r)| && Collide(c.n, e, k) && SendTarget(c, r, e) == SendTarget(c, r, k)
      ensures Serves(c, r, e, k)
    {
      WholeSegment(c, r, e / 2);
      WholeSegment(c, r, k / 2);
      SameSlices(c, r, e / 2);
      SameSlices(c, r, k / 2);
    }
  }

  // ----- Other writes: a cell that tells two neighbouring slices apart -----------------------------

  /** The byte at `l` once `data` is laid at `at` over a byte `b`. */
  function Laid(at: nat, data: seq<Byte>, l: nat, b: Byte): Byte
  {
    if at <= l < at + |data| then data[l - at] else b
  }

  /** Cell `l`, if it holds `b`, shows whether segment `j` or the one before it was laid
      over it. */
  ghost predicate Tells(c: Config, r: Request, j: nat, l: nat, b: Byte)
    requires ValidConfig(c)
  {
    && 0 < j < |SegmentsOf(c, r)| && l < c.chunk && BufferFits(Write, SegmentsOf(c, r), r.data)
    && Laid(SegmentsOf(c, r)[j - 1].localOffset, Slice(r.data, SegmentsOf(c, r)[j - 1]), l, b)
    != Laid(SegmentsOf(c, r)[j].localOffset, Slice(r.data, SegmentsOf(c, r)[j]), l, b)
  }

  function Other(b: Byte): Byte
  {
    if b == 0 then 1 else 0
  }

  /** Not aligned: the first byte of the second segment's chunk. */
  lemma UnalignedTells(c: Config, r: Request) returns (l: nat, b: Byte)
    requires ValidConfig(c) && |SegmentsOf(c, r)| >= 2 && r.offset % c.chunk > 0
    requires BufferFits(Write, SegmentsOf(c, r), r.data)
    ensures Tells(c, r, 1, l, b)
  {
    PieceBounds(r.offset, r.length, c.chunk, 1);
    l, b := 0, Other(Slice(r.data, SegmentsOf(c, r)[1])[0]);
  }

  lemma LaidDiffer(data: seq<Byte>, p: Segment, q: Segment, chunk: nat, k: nat, b: Byte)
    requires p.length == chunk && p.localOffset == q.localOffset == 0 && q.bufferOffset == p.bufferOffset + chunk
    requires Holds(q, k) && q.length <= chunk && q.bufferOffset + q.length <= |data| && data[k] != data[k - chunk]
    ensures var l := k - q.bufferOffset; Laid(0, Slice(data, p), l, b) != Laid(0, Slice(data, q), l, b)
  {
    assert Slice(data, p)[k - q.bufferOffset] == data[k - chunk] && Slice(data, q)[k - q.bufferOffset] == data[k];
  }

  lemma HolderIsLater(c: Config, r: Request, k: nat) returns (j: nat)
    requires ValidConfig(c) && r.offset % c.chunk == 0 && c.chunk <= k < r.length
    ensures 0 < j < |SegmentsOf(c, r)| && Holds(SegmentsOf(c, r)[j], k)
  {
    ByteInOneSegment(r.offset, r.length, c.chunk, c.n, k);
    j := SegmentOf(r.offset, c.chunk, k);
    if j == 0 {
      AlignedSegment(c, r, 0);
      AlignedStart(c, r, 0);
    }
  }

  /** Two bytes a chunk apart that differ. */
  lemma DifferingTells(c: Config, r: Request, k: nat) returns (j: nat, l: nat)
    requires ValidConfig(c) && r.offset % c.chunk == 0 && BufferFits(Write, SegmentsOf(c, r), r.data)
    requires c.chunk <= k < r.length && r.length <= |r.data| && r.data[k] != r.data[k - c.chunk]
    ensures Tells(c, r, j, l, 0)
  {
    j := HolderIsLater(c, r, k);
    l := k - SegmentsOf(c, r)[j].bufferOffset;
    AlignedSegment(c, r, j);
    AlignedSegment(c, r, j - 1);
    NextPiece(c, r, j - 1);
    LaidDiffer(r.data, SegmentsOf(c, r)[j - 1], SegmentsOf(c, r)[j], c.chunk, k, 0);
  }

  /** A last segment that does not fill its chunk: the byte behind it. */
  lemma ShortTells(c: Config, r: Request) returns (j: nat, l: nat, b: Byte)
    requires ValidConfig(c) && |SegmentsOf(c, r)| >= 2 && r.offset % c.chunk == 0 && r.length % c.chunk != 0
    requires BufferFits(Write, SegmentsOf(c, r), r.data)
    ensures Tells(c, r, j, l, b)
  {
    j := |SegmentsOf(c, r)| - 1;
    AlignedSegment(c, r, j - 1);
    AlignedSegment(c, r, j);
    LastIsWhole(c, r, j);
    l := SegmentsOf(c, r)[j].length;
    b := Other(Slice(r.data, SegmentsOf(c, r)[j - 1])[l]);
  }

  /** Every write of two or more segments that does not repeat has such a cell. */
  lemma SomethingTells(c: Config, r: Request) returns (j: nat, l: nat, b: Byte)
    requires ValidConfig(c) && ValidRequest(r) && r.op == Write && |SegmentsOf(c, r)| >= 2 && !Repeats(c, r)
    ensures Tells(c, r, j, l, b)
  {
    SegmentsFit(Write, r.offset, r.length, c.chunk, c.n, r.data);
    b := 0;
    if r.offset % c.chunk > 0 {
      j := 1;
      l, b := UnalignedTells(c, r);
    } else if r.length % c.chunk != 0 {
      j, l, b := ShortTells(c, r);
    } else {
      var k: nat :| c.chunk <= k < r.length && k < |r.data| && r.data[k] != r.data[k - c.chunk];
      j, l := DifferingTells(c, r, k);
    }
  }
}
