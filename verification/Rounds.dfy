/** Rounds of a request: a byte stored beforehand, a message sent, served and answered. */
module Rounds {
  import opened Types
  import opened Arithmetic
  import opened StripeSplitter
  import opened Codec
  import opened MirrorTicket
  import opened Minion
  import opened MinionManager
  import opened MasterProxies
  import opened RaidSystem
  import opened RaidInvariant
  import opened RaidOrigin
  import opened RaidSafety
  import opened RaidReplies
  import opened RaidTickets
  import opened WideCallbacks
  import opened WideReplies
  import opened RaidProgress
  import opened RaidExamples
  import opened WideRequests

  /** An in-range request with something to do, none of whose messages is too large to arrive. */
  predicate Proper(c: Config, r: Request)
    requires ValidConfig(c)
  {
    ValidRequest(r) && r.length > 0 && r.offset + r.length <= c.n * c.chunk && SmallSlices(c, r)
  }

  // ----- A byte stored beforehand ------------------------------------------------------------------

  /** A write of byte `b` to the address that minion `m` keeps at `l` as primary. */
  function Seed(c: Config, m: nat, l: nat, b: Byte): Request
  {
    Request(Zeros(8), Write, m * c.chunk + l, 1, [b])
  }

  lemma SeedIsProper(c: Config, m: nat, l: nat, b: Byte)
    requires ValidConfig(c) && m < c.n && l < c.chunk
    ensures Proper(c, Seed(c, m, l, b))
    ensures SegmentsOf(c, Seed(c, m, l, b)) == [Segment(l, 1, 0, m, BackupIndex(m, c.n))]
    ensures SendTarget(c, Seed(c, m, l, b), 0) == m
  {
    MultipleStep(m, c.n, c.chunk);
    DivModUnique(m * c.chunk + l, c.chunk, m, l);
    OneSegment(c, Seed(c, m, l, b));
  }

  /** What the minion does with it. */
  lemma SeedLands(c: Config, s: System, m: nat, l: nat, b: Byte, id: SendId, cells: seq<Byte>)
    requires ValidConfig(c) && |cells| == c.chunk && l < c.chunk
    requires SegmentsOf(c, Seed(c, m, l, b)) == [Segment(l, 1, 0, m, BackupIndex(m, c.n))]
    requires ValidSend(c, s, m, id) && s.tasks[id.uid].request == Seed(c, m, l, b) && id.k == 0
    ensures CellsAfter(cells, MessageOf(c, s, m, id), true, [])[l] == b
  {
    SendMessage(c, s, m, id);
    assert Slice([b], Segment(l, 1, 0, m, BackupIndex(m, c.n))) == [b];
    assert ([b] + [id.trailer])[..1] == [b];
  }

  lemma SeedSent(c: Config, m: nat, l: nat, b: Byte) returns (run: Run)
    requires ValidConfig(c) && m < c.n && l < c.chunk
    ensures IsRun(c, run) && Last(run).nextUid == 1
    ensures Last(run).tasks == map[0 := Task(Seed(c, m, l, b), Sending(1))]
    ensures forall call :: !FiredBefore(run, |run.labels|, call)
  {
    var r := Seed(c, m, l, b);
    SeedIsProper(c, m, l, b);
    Accepted(c, r);
    var ready := OpenRequest(c, Start(c), r);
    run := SendAll(c, ready, 0, r, 1);
    QuietTwice(c, Start(c), ready, run);
  }

  /** The byte has reached its minion. */
  lemma SeedStored(c: Config, m: nat, l: nat, b: Byte) returns (run: Run)
    requires ValidConfig(c) && m < c.n && l < c.chunk
    ensures IsRun(c, run) && Last(run).nextUid == 1
    ensures Last(run).tasks == map[0 := Task(Seed(c, m, l, b), Sending(1))]
    ensures Cell(Last(run).stores, m, l, b)
    ensures forall call :: !FiredBefore(run, |run.labels|, call)
  {
    SeedIsProper(c, m, l, b);
    var sent := SeedSent(c, m, l, b);
    var at, packet, id := SentIsInNetwork(c, sent, |sent.labels|, 0, 0);
    SendGoesThere(c, Last(sent), at, id);
    RunKeeps(c, sent, |sent.labels|);
    SeedLands(c, Last(sent), m, l, b, id, Last(sent).stores[m]);
    var answer;
    run, answer := ServeSend(c, sent, m, packet, id, true);
    QuietStep(c, sent, run, Serve(m, packet, true, []));
  }

  /** Request `r` is ready to be sent as request 1, and minion `m` holds `b` at `l`. */
  lemma Ready(c: Config, r: Request, m: nat, l: nat, b: Byte) returns (run: Run)
    requires ValidConfig(c) && Proper(c, r) && m < c.n && l < c.chunk
    ensures IsRun(c, run) && Cell(Last(run).stores, m, l, b)
    ensures Last(run).tasks == map[0 := Task(Seed(c, m, l, b), Sending(1)), 1 := Task(r, Sending(0))]
    ensures forall call :: !FiredBefore(run, |run.labels|, call)
  {
    var stored := SeedStored(c, m, l, b);
    run := OpenRequest(c, stored, r);
  }

  // ----- One message sent and answered --------------------------------------------------------------

  lemma CanSendNext(c: Config, s: System, uid: nat, r: Request, k: nat)
    requires ValidConfig(c) && Proper(c, r) && k < 2 * |SegmentsOf(c, r)|
    requires uid in s.tasks && s.tasks[uid] == Task(r, Sending(k))
    ensures CanSend(c, s, uid)
  {
    Accepted(c, r);
  }

  /** The next message is sent and served; its callback waits for the answer, which is on its way. */
  lemma SendAndServe(c: Config, run: Run, uid: nat, r: Request, k: nat, m: nat)
    returns (sent: Run, served: Run, packet: seq<Byte>, id: SendId, answer: Message)
    requires ValidConfig(c) && IsRun(c, run) && CanSend(c, Last(run), uid) && Last(run).tasks[uid] == Task(r, Sending(k))
    requires Proper(c, r) && m == SendTarget(c, r, k)
    ensures Extends(c, run, sent) && sent.labels == run.labels + [Send(uid, 0)] && Last(sent).stores == Last(run).stores
    ensures Extends(c, sent, served) && served.labels == sent.labels + [Serve(m, packet, true, [])]
    ensures Last(served).tasks == Last(run).tasks[uid := Task(r, Sending(k + 1))]
    ensures WaitsAt(Last(served), m, NewCallback(uid, k)) && (m, Encode(answer)) in Last(served).toMaster
    ensures answer.uid == uid && Deliver(Encode(answer)) == Some(answer)
    ensures AnswerOf(answer).Some? && AnswerOf(answer).value.ok
    ensures id.uid == uid && id.k == k && ValidSend(c, Last(sent), m, id)
    ensures Last(sent).tasks[uid].request == r && m < |Last(run).stores|
    ensures Last(served).stores
         == Last(run).stores[m := CellsAfter(Last(run).stores[m], MessageOf(c, Last(sent), m, id), true, [])]
  {
    sent := SendNext(c, run, uid, r, k);
    var m';
    m', packet, id := SentIsInNetwork(c, sent, |sent.labels|, uid, k);
    SendGoesThere(c, Last(sent), m', id);
    served, answer := ServeSend(c, sent, m', packet, id, true);
  }

  lemma AnswerStays(c: Config, run: Run, longer: Run, m: nat, packet: seq<Byte>)
    requires ValidConfig(c) && IsRun(c, run) && Extends(c, run, longer) && |longer.labels| == |run.labels| + 1
    requires (m, packet) in Last(run).toMaster
    ensures (m, packet) in Last(longer).toMaster
  {
    NetworkGrows(c, longer, |run.labels|);
  }

  lemma JustFiredOk(run: Run, longer: Run, l: Label, uid: nat, k: nat, answer: Answer)
    requires |run.states| == |run.labels| + 1 && |longer.states| == |longer.labels| + 1
    requires run.states <= longer.states && longer.labels == run.labels + [l]
    requires FiredBy(Last(run), l) == Some((NewCallback(uid, k), answer)) && answer.ok
    ensures FiredOk(longer, uid, k)
  {
    assert OkAt(longer, |run.labels|, NewCallback(uid, k));
  }

  /** The master receives the answer, again or for the first time. */
  lemma AnswerComes(c: Config, run: Run, uid: nat, k: nat, m: nat, answer: Message) returns (longer: Run)
    requires ValidConfig(c) && IsRun(c, run) && WaitsAt(Last(run), m, NewCallback(uid, k)) && answer.uid == uid
    requires (m, Encode(answer)) in Last(run).toMaster && Deliver(Encode(answer)) == Some(answer)
    requires AnswerOf(answer).Some? && AnswerOf(answer).value.ok
    ensures Extends(c, run, longer) && longer.labels == run.labels + [Label.Wakeup(m, Encode(answer), [])]
    ensures Last(longer).tasks == Last(run).tasks && Last(longer).stores == Last(run).stores
    ensures (m, Encode(answer)) in Last(longer).toMaster && FiredOk(longer, uid, k)
  {
    longer := MasterReceives(c, run, m, answer, NewCallback(uid, k));
    AnswerStays(c, run, longer, m, Encode(answer));
    JustFiredOk(run, longer, Label.Wakeup(m, Encode(answer), []), uid, k, AnswerOf(answer).value);
  }

  lemma FiresOnce(c: Config, run: Run, t: nat, u: nat, call: Callback)
    requires ValidConfig(c) && IsRun(c, run) && FiredAt(run, t, call) && FiredAt(run, u, call)
    ensures t == u
  {
    if t < u {
      CallbackFiresOnce(c, run, t, u);
    } else if u < t {
      CallbackFiresOnce(c, run, u, t);
    }
  }

  /** Of a request in range only its two messages around it go to the primary of segment `j`. */
  lemma Neighbours(c: Config, r: Request, j: nat)
    requires ValidConfig(c) && r.offset + r.length <= c.n * c.chunk && 0 < j < |SegmentsOf(c, r)|
    ensures SendTarget(c, r, 2 * j - 1) == SendTarget(c, r, 2 * j) < c.n
    ensures forall k: nat | k < 2 * |SegmentsOf(c, r)| && k != 2 * j - 1 && k != 2 * j :: SendTarget(c, r, k) != SendTarget(c, r, 2 * j)
  {
    LastIndex(c, r, 2 * j);
    CollidingSends(c, r, 2 * j - 1, 2 * j);
    LastIndex(c, r, 2 * |SegmentsOf(c, r)| - 1);
    forall k: nat | k < 2 * |SegmentsOf(c, r)| && k != 2 * j - 1 && k != 2 * j
      ensures SendTarget(c, r, k) != SendTarget(c, r, 2 * j)
    {
      if k < 2 * j {
        CollidingSends(c, r, k, 2 * j);
      } else {
        CollidingSends(c, r, 2 * j, k);
      }
    }
  }
}
