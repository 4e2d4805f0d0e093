/** The whole data path as a state machine: kernel requests, the master's tables,
    tickets and proxies, the network, and the minions' files. Every locked region of
    the source is one step. A run is a sequence of step labels. */
module RaidSystem {
  import opened Types
  import opened StripeSplitter
  import opened Codec
  import opened MirrorTicket
  import opened ReadAssembly
  import opened Minion
  import opened MinionManager
  import opened MasterProxies

  /** The number of minions and the size of each minion's file. */
  datatype Config = Config(n: nat, chunk: nat)

  /** Sizes for which no 64-bit offset and no 32-bit message size wraps around. */
  predicate ValidConfig(c: Config)
  {
    c.n > 0 && c.chunk > 0 && c.n * c.chunk < U64 && c.chunk + 33 < U32
  }

  /** A kernel request as NBDProxy hands it on. */
  datatype Request = Request(handle: seq<Byte>, op: Op, offset: nat, length: nat, data: seq<Byte>)

  predicate ValidRequest(r: Request)
  {
    && |r.handle| == 8
    && r.length < U32 && r.offset + r.length < U64
    && (r.op == Write ==> |r.data| == r.length)
  }

  /** How far the threads that handle a request have come: read from the kernel,
      announced to ResponseManager, refused as out of range, or `sent` of its
      messages sent. */
  datatype Phase = Registered | Queued | Rejected | Sending(sent: nat)

  datatype Task = Task(request: Request, phase: Phase)

  datatype Reply = Reply(uid: nat, handle: seq<Byte>, error: nat, payload: seq<Byte>)

  datatype System = System(
    nextUid: nat,
    /** Every request ever read, by UID. */
    tasks: map<nat, Task>,
    books: Books,
    /** The ticket objects; callbacks keep them alive. */
    state: map<nat, State>,
    /** `m_map` of each proxy. */
    pending: seq<map<nat, Callback>>,
    /** Every datagram ever sent, with the minion it went to or came from. */
    toMinion: set<(nat, seq<Byte>)>,
    toMaster: set<(nat, seq<Byte>)>,
    stores: seq<seq<Byte>>,
    /** The replies whose bytes make up the stream. */
    replies: seq<Reply>)

  function Init(c: Config): System
  {
    System(0, map[], Books({}, {}, map[], []), map[],
           seq(c.n, _ => map[]), {}, {}, seq(c.n, _ => Zeros(c.chunk)), [])
  }

  function SegmentsOf(c: Config, r: Request): seq<Segment>
    requires ValidConfig(c)
  {
    Segments(r.offset, r.length, c.chunk, c.n)
  }

  datatype Label =
    | NewRequest(request: Request)
    | Announce(uid: nat)
    | OpenTicket(uid: nat)
    | Send(uid: nat, trailer: Byte)
    | Serve(minion: nat, packet: seq<Byte>, good: bool, noise: seq<Byte>)
    | Wakeup(minion: nat, packet: seq<Byte>, noise: seq<Byte>)

  predicate CanSend(c: Config, s: System, uid: nat)
    requires ValidConfig(c)
  {
    && uid in s.tasks && s.tasks[uid].phase.Sending?
    && var r := s.tasks[uid].request;
       && s.tasks[uid].phase.sent < 2 * |SegmentsOf(c, r)|
       && BufferFits(r.op, SegmentsOf(c, r), r.data)
  }

  /** Datagrams are never taken out of the network, and any of them may be received
      at any time: this covers loss, duplication, delay and reordering. */
  predicate Enabled(c: Config, s: System, l: Label)
    requires ValidConfig(c)
  {
    match l
    case NewRequest(r) => ValidRequest(r) && s.nextUid < U64
    case Announce(uid) => uid in s.tasks && s.tasks[uid].phase == Registered
    case OpenTicket(uid) => uid in s.tasks && s.tasks[uid].phase == Queued
    case Send(uid, _) => CanSend(c, s, uid)
    case Serve(m, packet, _, _) => m < |s.stores| && (m, packet) in s.toMinion
    case Wakeup(m, packet, _) => m < |s.pending| && (m, packet) in s.toMaster
  }

  /** `NBDProxy::GetTaskArgs` up to the registration of the reply. */
  function AfterNewRequest(s: System, r: Request): System
  {
    var uid := s.nextUid;
    s.(nextUid := uid + 1,
       tasks := s.tasks[uid := Task(r, Registered)],
       books := s.books.(responses := if uid in s.books.responses then s.books.responses
                                      else s.books.responses[uid := r.handle]))
  }

  function SetPhase(s: System, uid: nat, phase: Phase): System
    requires uid in s.tasks
  {
    s.(tasks := s.tasks[uid := s.tasks[uid].(phase := phase)])
  }

  /** `ResponseManager::OnNewTask`. */
  function AfterAnnounce(s: System, uid: nat): System
    requires uid in s.tasks
  {
    SetPhase(s, uid, Queued).(books := s.books.(requests := s.books.requests + {uid}))
  }

  /** `MinionManager::Add*Task` up to the notification of the new ticket. */
  function AfterOpenTicket(c: Config, s: System, uid: nat): System
    requires ValidConfig(c) && uid in s.tasks
  {
    var r := s.tasks[uid].request;
    if !RangeAccepted(r.offset, r.length, c.n * c.chunk) then SetPhase(s, uid, Rejected)
    else SetPhase(s, uid, Sending(0)).(
           state := s.state[uid := Fresh(r.op, r.length, SegmentsOf(c, r))],
           books := s.books.(tickets := s.books.tickets + {uid}))
  }

  function OutgoingOf(c: Config, r: Request, uid: nat, k: nat, trailer: Byte): Outgoing
    requires ValidConfig(c) && k < 2 * |SegmentsOf(c, r)| && BufferFits(r.op, SegmentsOf(c, r), r.data)
  {
    SendAt(r.op, uid, SegmentsOf(c, r), r.data, k, trailer)
  }

  /** The next `MinionProxy::Add*Task` of a request. */
  function AfterSend(c: Config, s: System, uid: nat, trailer: Byte): System
    requires ValidConfig(c) && CanSend(c, s, uid)
  {
    var k := s.tasks[uid].phase.sent;
    var out := OutgoingOf(c, s.tasks[uid].request, uid, k, trailer);
    if out.minion >= |s.pending| then s else
    var waiting: map<nat, Callback> := s.pending[out.minion][uid := Callback(uid, out.segment, out.role)];
    SetPhase(s, uid, Sending(k + 1)).(
           pending := s.pending[out.minion := waiting],
           toMinion := s.toMinion + {(out.minion, Encode(out.message))})
  }

  /** A minion handles one datagram. */
  function AfterServe(s: System, m: nat, packet: seq<Byte>, good: bool, noise: seq<Byte>): System
    requires m < |s.stores|
  {
    match Deliver(packet)
    case None => s
    case Some(request) =>
      var cells := s.stores[m];
      var served := s.(stores := s.stores[m := CellsAfter(cells, request, good, noise)]);
      match AnswerTo(cells, request, good, noise)
      case None => served
      case Some(answer) => served.(toMaster := s.toMaster + {(m, Encode(answer))})
  }

  /** `ResponseManager::OnTicketDone` with the reply it sends. */
  function AfterDone(s: System, result: TaskResult): System
  {
    var b := s.books;
    s.(books := TicketDone(b, result),
       replies := if result.uid in b.requests && result.uid in b.responses then
                    s.replies + [Reply(result.uid, b.responses[result.uid], ErrorOf(result), PayloadOf(result))]
                  else s.replies)
  }

  /** A callback tells its ticket about an answer; the answer that completes the
      ticket burns one UID and sends the reply. */
  function AfterCall(s: System, call: Callback, answer: Answer, noise: seq<Byte>): System
  {
    if call.ticket !in s.state then s else
    var t := s.state[call.ticket];
    var response := Response(call.segment, call.role, Some(answer));
    var t' := Accept(t, response);
    var told := s.(state := s.state[call.ticket := t']);
    if !Fires(t, response) || !Fits(t'.segments, t'.totalLength) then told
    else AfterDone(told.(nextUid := s.nextUid + 1),
                   ResultFor(call.ticket, t', Noise(noise, t'.totalLength)))
  }

  /** `MinionProxy::OnMinionFDWakeUp` with everything it calls. */
  function AfterWakeup(s: System, m: nat, packet: seq<Byte>, noise: seq<Byte>): System
    requires m < |s.pending|
  {
    var w := Wake(s.pending[m], Deliver(packet));
    match w.call
    case None => s
    case Some((call, answer)) => AfterCall(s.(pending := s.pending[m := w.pending]), call, answer, noise)
  }

  function Apply(c: Config, s: System, l: Label): System
    requires ValidConfig(c) && Enabled(c, s, l)
  {
    match l
    case NewRequest(r) => AfterNewRequest(s, r)
    case Announce(uid) => AfterAnnounce(s, uid)
    case OpenTicket(uid) => AfterOpenTicket(c, s, uid)
    case Send(uid, trailer) => AfterSend(c, s, uid, trailer)
    case Serve(m, packet, good, noise) => AfterServe(s, m, packet, good, noise)
    case Wakeup(m, packet, noise) => AfterWakeup(s, m, packet, noise)
  }

  /** The states passed and the steps taken between them. */
  datatype Run = Run(states: seq<System>, labels: seq<Label>)

  ghost predicate StepAt(c: Config, run: Run, t: nat)
    requires ValidConfig(c) && t < |run.labels| && t + 1 < |run.states|
  {
    Enabled(c, run.states[t], run.labels[t]) && run.states[t + 1] == Apply(c, run.states[t], run.labels[t])
  }

  /** A run of any length, with any interleaving of steps. */
  ghost predicate IsRun(c: Config, run: Run)
    requires ValidConfig(c)
  {
    && |run.states| == |run.labels| + 1
    && run.states[0] == Init(c)
    && forall t | 0 <= t < |run.labels| :: StepAt(c, run, t)
  }
}
