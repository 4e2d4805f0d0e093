/** What every step of the system keeps: UIDs, tables, tickets, pending callbacks and
    replies agree with each other. */
module RaidInvariant {
  import opened Types
  import opened StripeSplitter
  import opened Codec
  import opened MirrorTicket
  import opened ReadAssembly
  import opened Minion
  import opened MinionManager
  import opened MasterProxies
  import opened RaidSystem

  /** A request that has not been answered. */
  predicate Open(s: System, uid: nat)
  {
    uid in s.state ==> !s.state[uid].completed
  }

  /** The ticket was made for the request. */
  ghost predicate TicketMatches(c: Config, t: State, r: Request)
    requires ValidConfig(c)
  {
    var segs := SegmentsOf(c, r);
    && t.op == r.op && t.totalLength == r.length && |t.segments| == |segs|
    && forall i | 0 <= i < |segs| ::
         t.segments[i].length == segs[i].length && t.segments[i].bufferOffset == segs[i].bufferOffset
  }

  ghost predicate Shape(c: Config, s: System)
  {
    && |s.pending| == c.n && |s.stores| == c.n
    && forall m | 0 <= m < c.n :: |s.stores[m]| == c.chunk
  }

  /** Tables speak only of requests that were read. */
  ghost predicate Domains(s: System)
  {
    && s.books.requests <= s.tasks.Keys && s.books.tickets <= s.tasks.Keys
    && s.books.responses.Keys <= s.tasks.Keys && s.state.Keys <= s.tasks.Keys
  }

  /** Where one request stands: a pending reply until it is answered, a pending request
      from its announcement on, a table entry while its ticket is open. */
  ghost predicate TaskOk(c: Config, s: System, uid: nat)
    requires ValidConfig(c) && uid in s.tasks
  {
    var task, b := s.tasks[uid], s.books;
    && uid < s.nextUid && uid < U64 && ValidRequest(task.request)
    && (uid in s.state <==> task.phase.Sending?)
    && (task.phase.Sending? ==>
          && task.request.offset + task.request.length <= c.n * c.chunk
          && task.phase.sent <= 2 * |SegmentsOf(c, task.request)|
          && TicketMatches(c, s.state[uid], task.request))
    && (uid in b.responses <==> Open(s, uid))
    && (uid in b.responses ==> b.responses[uid] == task.request.handle)
    && (uid in b.requests <==> Open(s, uid) && task.phase != Registered)
    && (uid in b.tickets <==> Open(s, uid) && task.phase.Sending?)
  }

  ghost predicate Tasks(c: Config, s: System)
    requires ValidConfig(c)
  {
    forall uid | uid in s.tasks :: TaskOk(c, s, uid)
  }

  /** A pending callback belongs to a ticket of the same UID and to one of its segments. */
  ghost predicate CallbackOk(s: System, m: nat, uid: nat)
    requires m < |s.pending| && uid in s.pending[m]
  {
    var call := s.pending[m][uid];
    call.ticket == uid && uid in s.state && call.segment < |s.state[uid].segments|
  }

  ghost predicate Callbacks(s: System)
  {
    forall m, uid | 0 <= m < |s.pending| && uid in s.pending[m] :: CallbackOk(s, m, uid)
  }

  /** A reply carries the handle of its request and the verdict of its ticket, and a
      payload exactly when that is a successful read. */
  ghost predicate ReplyOk(s: System, r: Reply)
  {
    && r.uid in s.tasks && r.uid in s.state && s.state[r.uid].completed
    && r.handle == s.tasks[r.uid].request.handle
    && ReplyCarries(r, s.state[r.uid])
  }

  ghost predicate ReplyCarries(r: Reply, t: State)
  {
    && Fits(t.segments, t.totalLength)
    && r.error == (if Verdict(t) then 0 else 5)
    && (if Verdict(t) && t.op == Read then
          exists init: seq<Byte> | |init| == t.totalLength :: r.payload == Assemble(init, t.segments)
        else r.payload == [])
  }

  /** Every reply is right, no request has two, and every completed ticket has one. */
  ghost predicate Replies(s: System)
  {
    && (forall i | 0 <= i < |s.replies| :: ReplyOk(s, s.replies[i]))
    && (forall i, j | 0 <= i < j < |s.replies| :: s.replies[i].uid != s.replies[j].uid)
    && (forall uid | uid in s.state && s.state[uid].completed :: Replied(s, uid))
    && s.books.stream == Serialize(s.replies)
  }

  ghost predicate Replied(s: System, uid: nat)
  {
    exists i :: 0 <= i < |s.replies| && s.replies[i].uid == uid
  }

  function BytesOf(r: Reply): seq<Byte>
  {
    ReplyHeader(r.error, r.handle) + r.payload
  }

  function Serialize(rs: seq<Reply>): seq<Byte>
  {
    if rs == [] then [] else Serialize(rs[..|rs| - 1]) + BytesOf(rs[|rs| - 1])
  }

  ghost predicate Inv(c: Config, s: System)
    requires ValidConfig(c)
  {
    Shape(c, s) && Domains(s) && Tasks(c, s) && Callbacks(s) && Replies(s)
  }

  // ----- Each step keeps it ----------------------------------------------------------

  lemma NewRequestKeeps(c: Config, s: System, r: Request)
    requires ValidConfig(c) && Inv(c, s) && Enabled(c, s, NewRequest(r))
    ensures Inv(c, AfterNewRequest(s, r))
  {
    var s' := AfterNewRequest(s, r);
    assert s.nextUid !in s.tasks;
    forall uid | uid in s'.tasks
      ensures TaskOk(c, s', uid)
    {
      if uid != s.nextUid {
        assert TaskOk(c, s, uid);
      }
    }
    assert Callbacks(s') by {
      forall m, uid | 0 <= m < |s'.pending| && uid in s'.pending[m]
        ensures CallbackOk(s', m, uid)
      {
        assert CallbackOk(s, m, uid);
      }
    }
    RepliesFrame(s, s');
  }

  /** Replies depend on nothing but tasks' requests, ticket states and the stream. */
  lemma RepliesFrame(s: System, s': System)
    requires Replies(s) && s'.replies == s.replies && s'.books.stream == s.books.stream
    requires forall uid | uid in s.state && s.state[uid].completed ::
      uid in s'.state && s'.state[uid] == s.state[uid]
    requires forall uid | uid in s'.state && s'.state[uid].completed ::
      uid in s.state && s'.state[uid] == s.state[uid]
    requires forall uid | uid in s.tasks :: uid in s'.tasks && s'.tasks[uid].request == s.tasks[uid].request
    ensures Replies(s')
  {
    forall i | 0 <= i < |s'.replies|
      ensures ReplyOk(s', s'.replies[i])
    {
      assert ReplyOk(s, s.replies[i]);
    }
    forall uid | uid in s'.state && s'.state[uid].completed
      ensures Replied(s', uid)
    {
      assert Replied(s, uid);
    }
  }

  /** A step that does not touch a request leaves its standing as it was. */
  lemma TaskFrame(c: Config, s: System, s': System, u: nat)
    requires ValidConfig(c) && u in s.tasks && TaskOk(c, s, u)
    requires u in s'.tasks && s'.tasks[u] == s.tasks[u] && s.nextUid <= s'.nextUid
    requires u in s'.state <==> u in s.state
    requires u in s.state ==> s'.state[u] == s.state[u]
    requires u in s'.books.requests <==> u in s.books.requests
    requires u in s'.books.tickets <==> u in s.books.tickets
    requires u in s'.books.responses <==> u in s.books.responses
    requires u in s.books.responses ==> s'.books.responses[u] == s.books.responses[u]
    ensures TaskOk(c, s', u)
  {
  }

  /** Neither does a step that keeps the ticket objects' sizes hurt a callback. */
  lemma CallbackFrame(s: System, s': System)
    requires Callbacks(s) && s'.pending == s.pending
    requires forall uid | uid in s.state ::
      uid in s'.state && |s'.state[uid].segments| == |s.state[uid].segments|
    ensures Callbacks(s')
  {
    forall m, u | 0 <= m < |s'.pending| && u in s'.pending[m]
      ensures CallbackOk(s', m, u)
    {
      assert CallbackOk(s, m, u);
    }
  }

  lemma AnnounceTasks(c: Config, s: System, uid: nat)
    requires ValidConfig(c) && Domains(s) && Tasks(c, s)
    requires uid in s.tasks && s.tasks[uid].phase == Registered
    ensures Domains(AfterAnnounce(s, uid)) && Tasks(c, AfterAnnounce(s, uid))
  {
    var s' := AfterAnnounce(s, uid);
    assert TaskOk(c, s, uid);
    forall u | u in s'.tasks
      ensures TaskOk(c, s', u)
    {
      if u != uid {
        TaskFrame(c, s, s', u);
      }
    }
  }

  lemma AnnounceKeeps(c: Config, s: System, uid: nat)
    requires ValidConfig(c) && Inv(c, s) && Enabled(c, s, Announce(uid))
    ensures Inv(c, AfterAnnounce(s, uid))
  {
    AnnounceTasks(c, s, uid);
    CallbackFrame(s, AfterAnnounce(s, uid));
    RepliesFrame(s, AfterAnnounce(s, uid));
  }

  lemma OpenTicketTasks(c: Config, s: System, uid: nat)
    requires ValidConfig(c) && Domains(s) && Tasks(c, s)
    requires uid in s.tasks && s.tasks[uid].phase == Queued
    ensures Domains(AfterOpenTicket(c, s, uid)) && Tasks(c, AfterOpenTicket(c, s, uid))
  {
    var s' := AfterOpenTicket(c, s, uid);
    assert TaskOk(c, s, uid);
    forall u | u in s'.tasks
      ensures TaskOk(c, s', u)
    {
      if u == uid {
        NewTicketOpen(c, s.tasks[uid].request);
      } else {
        TaskFrame(c, s, s', u);
      }
    }
  }

  lemma NewStateKeeps(s: System, s': System, uid: nat, t: State)
    requires Callbacks(s) && Replies(s) && uid !in s.state && !t.completed
    requires s'.state == s.state[uid := t] && s'.pending == s.pending && s'.replies == s.replies
    requires s'.books.stream == s.books.stream
    requires forall u | u in s.tasks :: u in s'.tasks && s'.tasks[u].request == s.tasks[u].request
    ensures Callbacks(s') && Replies(s')
  {
    CallbackFrame(s, s');
    RepliesFrame(s, s');
  }

  lemma SetPhaseKeeps(s: System, uid: nat, phase: Phase)
    requires uid in s.tasks && Callbacks(s) && Replies(s)
    ensures Callbacks(SetPhase(s, uid, phase)) && Replies(SetPhase(s, uid, phase))
  {
    CallbackFrame(s, SetPhase(s, uid, phase));
    RepliesFrame(s, SetPhase(s, uid, phase));
  }

  lemma OpenTicketRest(c: Config, s: System, uid: nat)
    requires ValidConfig(c) && Callbacks(s) && Replies(s)
    requires uid in s.tasks && uid !in s.state
    ensures Callbacks(AfterOpenTicket(c, s, uid)) && Replies(AfterOpenTicket(c, s, uid))
  {
    var r := s.tasks[uid].request;
    if !RangeAccepted(r.offset, r.length, c.n * c.chunk) {
      SetPhaseKeeps(s, uid, Rejected);
    } else {
      SetPhaseKeeps(s, uid, Sending(0));
      NewStateKeeps(SetPhase(s, uid, Sending(0)), AfterOpenTicket(c, s, uid), uid,
                    Fresh(r.op, r.length, SegmentsOf(c, r)));
    }
  }

  lemma OpenTicketKeeps(c: Config, s: System, uid: nat)
    requires ValidConfig(c) && Inv(c, s) && Enabled(c, s, OpenTicket(uid))
    ensures Inv(c, AfterOpenTicket(c, s, uid))
  {
    assert TaskOk(c, s, uid);
    OpenTicketTasks(c, s, uid);
    OpenTicketRest(c, s, uid);
  }

  lemma NewTicketOpen(c: Config, r: Request)
    requires ValidConfig(c)
    ensures TicketMatches(c, Fresh(r.op, r.length, SegmentsOf(c, r)), r)
    ensures !Fresh(r.op, r.length, SegmentsOf(c, r)).completed
  {
  }

  /** Every send goes to an existing minion. */
  lemma SendInRange(c: Config, r: Request, uid: nat, k: nat, trailer: Byte)
    requires ValidConfig(c) && k < 2 * |SegmentsOf(c, r)| && BufferFits(r.op, SegmentsOf(c, r), r.data)
    requires r.offset + r.length <= c.n * c.chunk
    ensures OutgoingOf(c, r, uid, k, trailer).minion < c.n
    ensures OutgoingOf(c, r, uid, k, trailer).segment < |SegmentsOf(c, r)|
  {
    SegmentTranslates(r.offset, r.length, c.chunk, c.n, k / 2);
  }

  lemma SendTasks(c: Config, s: System, uid: nat, trailer: Byte)
    requires ValidConfig(c) && Domains(s) && Tasks(c, s) && CanSend(c, s, uid)
    ensures Domains(AfterSend(c, s, uid, trailer)) && Tasks(c, AfterSend(c, s, uid, trailer))
  {
    var s' := AfterSend(c, s, uid, trailer);
    assert TaskOk(c, s, uid);
    forall u | u in s'.tasks
      ensures TaskOk(c, s', u)
    {
      if u != uid {
        TaskFrame(c, s, s', u);
      }
    }
  }

  lemma SendCallbacks(c: Config, s: System, uid: nat, trailer: Byte)
    requires ValidConfig(c) && Inv(c, s) && CanSend(c, s, uid)
    ensures Shape(c, AfterSend(c, s, uid, trailer)) && Callbacks(AfterSend(c, s, uid, trailer))
  {
    var s' := AfterSend(c, s, uid, trailer);
    assert TaskOk(c, s, uid);
    SendInRange(c, s.tasks[uid].request, uid, s.tasks[uid].phase.sent, trailer);
    forall m, u | 0 <= m < |s'.pending| && u in s'.pending[m]
      ensures CallbackOk(s', m, u)
    {
      if u in s.pending[m] {
        assert CallbackOk(s, m, u);
      }
    }
  }

  lemma SendReplies(c: Config, s: System, uid: nat, trailer: Byte)
    requires ValidConfig(c) && Replies(s) && CanSend(c, s, uid)
    ensures Replies(AfterSend(c, s, uid, trailer))
  {
    RepliesFrame(s, AfterSend(c, s, uid, trailer));
  }

  lemma SendKeeps(c: Config, s: System, uid: nat, trailer: Byte)
    requires ValidConfig(c) && Inv(c, s) && Enabled(c, s, Send(uid, trailer))
    ensures Inv(c, AfterSend(c, s, uid, trailer))
  {
    SendTasks(c, s, uid, trailer);
    SendCallbacks(c, s, uid, trailer);
    SendReplies(c, s, uid, trailer);
  }

  lemma ServeKeeps(c: Config, s: System, m: nat, packet: seq<Byte>, good: bool, noise: seq<Byte>)
    requires ValidConfig(c) && Inv(c, s) && m < |s.stores|
    ensures Inv(c, AfterServe(s, m, packet, good, noise))
  {
    var s' := AfterServe(s, m, packet, good, noise);
    assert s' == s.(stores := s'.stores, toMaster := s'.toMaster);
    assert Shape(c, s');
    forall u | u in s'.tasks
      ensures TaskOk(c, s', u)
    {
      assert TaskOk(c, s, u);
      TaskFrame(c, s, s', u);
    }
    CallbackFrame(s, s');
    RepliesFrame(s, s');
  }

  lemma TicketFits(c: Config, t: State, r: Request)
    requires ValidConfig(c) && TicketMatches(c, t, r)
    ensures Fits(t.segments, t.totalLength)
  {
    forall i | 0 <= i < |t.segments|
      ensures t.segments[i].bufferOffset + t.segments[i].length <= t.totalLength
    {
      PieceBounds(r.offset, r.length, c.chunk, i);
    }
  }

  /** A new state of one ticket, if it is as open as the old one. */
  lemma TellTasks(c: Config, s: System, uid: nat, t: State)
    requires ValidConfig(c) && Domains(s) && Tasks(c, s)
    requires uid in s.state && TicketMatches(c, t, s.tasks[uid].request)
    requires t.completed == s.state[uid].completed
    ensures Domains(s.(state := s.state[uid := t])) && Tasks(c, s.(state := s.state[uid := t]))
  {
    var s' := s.(state := s.state[uid := t]);
    assert TaskOk(c, s, uid);
    forall u | u in s'.tasks
      ensures TaskOk(c, s', u)
    {
      if u != uid {
        TaskFrame(c, s, s', u);
      }
    }
  }

  lemma TellKeeps(c: Config, s: System, uid: nat, t: State)
    requires ValidConfig(c) && Inv(c, s)
    requires uid in s.state && TicketMatches(c, t, s.tasks[uid].request)
    requires t.completed == s.state[uid].completed && (t.completed ==> t == s.state[uid])
    ensures Inv(c, s.(state := s.state[uid := t]))
  {
    var s' := s.(state := s.state[uid := t]);
    TellTasks(c, s, uid, t);
    assert TaskOk(c, s, uid);
    CallbackFrame(s, s');
    RepliesFrame(s, s');
  }

  /** The system after the answer that completes ticket `uid` in state `t`. */
  function Completed(s: System, uid: nat, t: State, init: seq<Byte>): System
    requires Fits(t.segments, t.totalLength) && |init| == t.totalLength
  {
    AfterDone(s.(state := s.state[uid := t], nextUid := s.nextUid + 1), ResultFor(uid, t, init))
  }

  /** The one reply that this sends. */
  function ReplyOf(s: System, uid: nat, t: State, init: seq<Byte>): Reply
    requires uid in s.tasks && Fits(t.segments, t.totalLength) && |init| == t.totalLength
  {
    var result := ResultFor(uid, t, init);
    Reply(uid, s.tasks[uid].request.handle, ErrorOf(result), PayloadOf(result))
  }

  lemma CompletedIs(c: Config, s: System, uid: nat, t: State, init: seq<Byte>)
    requires ValidConfig(c) && Inv(c, s) && uid in s.state && !s.state[uid].completed
    requires Fits(t.segments, t.totalLength) && |init| == t.totalLength
    ensures var s', b := Completed(s, uid, t, init), s.books;
      s' == s.(state := s.state[uid := t], nextUid := s.nextUid + 1,
               replies := s.replies + [ReplyOf(s, uid, t, init)],
               books := Books(b.requests - {uid}, b.tickets - {uid}, b.responses - {uid},
                              b.stream + BytesOf(ReplyOf(s, uid, t, init))))
  {
    assert TaskOk(c, s, uid);
    var r := ReplyOf(s, uid, t, init);
    assert s.books.stream + ReplyHeader(r.error, r.handle) + r.payload == s.books.stream + BytesOf(r);
  }

  lemma CompleteReplies(c: Config, s: System, uid: nat, t: State, init: seq<Byte>)
    requires ValidConfig(c) && Inv(c, s)
    requires uid in s.state && !s.state[uid].completed
    requires t.completed && Fits(t.segments, t.totalLength) && |init| == t.totalLength
    ensures Replies(Completed(s, uid, t, init))
  {
    var s' := Completed(s, uid, t, init);
    var r := ReplyOf(s, uid, t, init);
    CompletedIs(c, s, uid, t, init);
    OneMoreReply(s, s', r, t, init);
    forall u | u in s'.state && s'.state[u].completed
      ensures Replied(s', u)
    {
      if u == uid {
        assert s'.replies[|s.replies|].uid == u;
      } else {
        assert Replied(s, u);
        var i :| 0 <= i < |s.replies| && s.replies[i].uid == u;
        assert s'.replies[i].uid == u;
      }
    }
    assert s'.replies[..|s'.replies| - 1] == s.replies;
  }

  lemma PayloadOfTicket(uid: nat, t: State, init: seq<Byte>)
    requires Fits(t.segments, t.totalLength) && |init| == t.totalLength
    ensures PayloadOf(ResultFor(uid, t, init)) == if Verdict(t) && t.op == Read then Assemble(init, t.segments) else []
  {
  }

  lemma ReplyOfCarries(s: System, uid: nat, t: State, init: seq<Byte>)
    requires uid in s.tasks && Fits(t.segments, t.totalLength) && |init| == t.totalLength
    ensures ReplyCarries(ReplyOf(s, uid, t, init), t)
  {
    PayloadOfTicket(uid, t, init);
  }

  lemma OneMoreReply(s: System, s': System, r: Reply, t: State, init: seq<Byte>)
    requires Replies(s) && r.uid in s.tasks && r.uid in s.state && !s.state[r.uid].completed
    requires t.completed && Fits(t.segments, t.totalLength) && |init| == t.totalLength
    requires r == ReplyOf(s, r.uid, t, init)
    requires s'.tasks == s.tasks && s'.state == s.state[r.uid := t] && s'.replies == s.replies + [r]
    ensures forall i | 0 <= i < |s'.replies| :: ReplyOk(s', s'.replies[i])
    ensures forall i, j | 0 <= i < j < |s'.replies| :: s'.replies[i].uid != s'.replies[j].uid
  {
    ReplyOfCarries(s, r.uid, t, init);
    forall i | 0 <= i < |s'.replies|
      ensures ReplyOk(s', s'.replies[i])
      ensures i < |s.replies| ==> s'.replies[i].uid != r.uid
    {
      if i < |s.replies| {
        assert ReplyOk(s, s.replies[i]);
      }
    }
  }

  lemma CompleteTasks(c: Config, s: System, s': System, uid: nat, t: State)
    requires ValidConfig(c) && Domains(s) && Tasks(c, s)
    requires uid in s.state && !s.state[uid].completed && TicketMatches(c, t, s.tasks[uid].request)
    requires t.completed && s'.tasks == s.tasks && s'.state == s.state[uid := t] && s'.nextUid == s.nextUid + 1
    requires s'.books.requests == s.books.requests - {uid} && s'.books.tickets == s.books.tickets - {uid}
    requires s'.books.responses == s.books.responses - {uid}
    ensures Domains(s') && Tasks(c, s')
  {
    assert TaskOk(c, s, uid);
    forall u | u in s'.tasks
      ensures TaskOk(c, s', u)
    {
      if u != uid {
        assert TaskOk(c, s, u);
        TaskFrame(c, s, s', u);
      }
    }
  }

  /** The rest of the invariant depends on what a completion leaves alone. */
  lemma CompleteRest(c: Config, s: System, s': System, uid: nat, t: State)
    requires ValidConfig(c) && Shape(c, s) && Domains(s) && Tasks(c, s) && Callbacks(s)
    requires uid in s.state && !s.state[uid].completed && TicketMatches(c, t, s.tasks[uid].request)
    requires t.completed && s'.tasks == s.tasks && s'.state == s.state[uid := t] && s'.nextUid == s.nextUid + 1
    requires s'.books.requests == s.books.requests - {uid} && s'.books.tickets == s.books.tickets - {uid}
    requires s'.books.responses == s.books.responses - {uid}
    requires s'.pending == s.pending && s'.stores == s.stores
    ensures Shape(c, s') && Domains(s') && Tasks(c, s') && Callbacks(s')
  {
    CompleteTasks(c, s, s', uid, t);
    assert TaskOk(c, s, uid);
    CallbackFrame(s, s');
  }

  lemma CompleteKeeps(c: Config, s: System, uid: nat, t: State, init: seq<Byte>)
    requires ValidConfig(c) && Inv(c, s)
    requires uid in s.state && !s.state[uid].completed && TicketMatches(c, t, s.tasks[uid].request)
    requires t.completed && Fits(t.segments, t.totalLength) && |init| == t.totalLength
    ensures Inv(c, Completed(s, uid, t, init))
  {
    CompletedIs(c, s, uid, t, init);
    CompleteReplies(c, s, uid, t, init);
    CompleteRest(c, s, Completed(s, uid, t, init), uid, t);
  }

  lemma ForgetKeeps(c: Config, s: System, m: nat, pending: map<nat, Callback>)
    requires ValidConfig(c) && Inv(c, s) && m < |s.pending|
    requires forall uid | uid in pending :: uid in s.pending[m] && pending[uid] == s.pending[m][uid]
    ensures Inv(c, s.(pending := s.pending[m := pending]))
  {
    var s' := s.(pending := s.pending[m := pending]);
    forall u | u in s'.tasks
      ensures TaskOk(c, s', u)
    {
      assert TaskOk(c, s, u);
    }
    forall k, u | 0 <= k < |s'.pending| && u in s'.pending[k]
      ensures CallbackOk(s', k, u)
    {
      assert CallbackOk(s, k, u);
    }
    RepliesFrame(s, s');
  }

  lemma CallKeeps(c: Config, s: System, call: Callback, answer: Answer, noise: seq<Byte>)
    requires ValidConfig(c) && Inv(c, s)
    ensures Inv(c, AfterCall(s, call, answer, noise))
  {
    if call.ticket in s.state {
      var uid, t := call.ticket, s.state[call.ticket];
      var response := Response(call.segment, call.role, Some(answer));
      var t' := Accept(t, response);
      assert TaskOk(c, s, uid);
      assert TicketMatches(c, t', s.tasks[uid].request);
      TicketFits(c, t', s.tasks[uid].request);
      if Fires(t, response) {
        CompleteKeeps(c, s, uid, t', Noise(noise, t'.totalLength));
      } else {
        TellKeeps(c, s, uid, t');
      }
    }
  }

  lemma WakeupKeeps(c: Config, s: System, m: nat, packet: seq<Byte>, noise: seq<Byte>)
    requires ValidConfig(c) && Inv(c, s) && m < |s.pending|
    ensures Inv(c, AfterWakeup(s, m, packet, noise))
  {
    var w := Wake(s.pending[m], Deliver(packet));
    if w.call.Some? {
      ForgetKeeps(c, s, m, w.pending);
      CallKeeps(c, s.(pending := s.pending[m := w.pending]), w.call.value.0, w.call.value.1, noise);
    }
  }

  lemma StepKeeps(c: Config, s: System, l: Label)
    requires ValidConfig(c) && Inv(c, s) && Enabled(c, s, l)
    ensures Inv(c, Apply(c, s, l))
  {
    match l
    case NewRequest(r) => NewRequestKeeps(c, s, r);
    case Announce(uid) => AnnounceKeeps(c, s, uid);
    case OpenTicket(uid) => OpenTicketKeeps(c, s, uid);
    case Send(uid, trailer) => SendKeeps(c, s, uid, trailer);
    case Serve(m, packet, good, noise) => ServeKeeps(c, s, m, packet, good, noise);
    case Wakeup(m, packet, noise) => WakeupKeeps(c, s, m, packet, noise);
  }

  lemma InitOk(c: Config)
    requires ValidConfig(c)
    ensures Inv(c, Init(c))
  {
  }

  lemma StepOfRun(c: Config, run: Run, t: nat)
    requires ValidConfig(c) && IsRun(c, run) && t < |run.labels|
    ensures Enabled(c, run.states[t], run.labels[t])
    ensures run.states[t + 1] == Apply(c, run.states[t], run.labels[t])
  {
    assert StepAt(c, run, t);
  }

  lemma NextKeeps(c: Config, run: Run, t: nat)
    requires ValidConfig(c) && IsRun(c, run) && t < |run.labels| && Inv(c, run.states[t])
    ensures Inv(c, run.states[t + 1])
  {
    StepOfRun(c, run, t);
    StepKeeps(c, run.states[t], run.labels[t]);
  }

  /** The bookkeeping is right in every state of every run. */
  lemma {:induction false} RunKeeps(c: Config, run: Run, t: nat)
    requires ValidConfig(c) && IsRun(c, run) && t < |run.states|
    ensures Inv(c, run.states[t])
  {
    if t == 0 {
      InitOk(c);
    } else {
      RunKeeps(c, run, t - 1);
      NextKeeps(c, run, t - 1);
    }
  }

  /** Spelled out: in every state of every run each request has at most one reply, with
      its own handle and its ticket's verdict; a request is answered exactly when its
      ticket has completed, and otherwise its reply is pending; the requests pending at
      ResponseManager are those whose reply is pending and that were announced; and
      ResponseManager's tickets belong to pending requests. */
  lemma Bookkeeping(c: Config, run: Run, t: nat)
    requires ValidConfig(c) && IsRun(c, run) && t < |run.states|
    ensures var s := run.states[t];
      && (forall i, j | 0 <= i < j < |s.replies| :: s.replies[i].uid != s.replies[j].uid)
      && (forall i | 0 <= i < |s.replies| :: ReplyOk(s, s.replies[i]))
      && (forall uid | uid in s.tasks :: uid in s.books.responses <==> !Replied(s, uid))
      && (forall uid | uid in s.tasks :: Replied(s, uid) <==> uid in s.state && s.state[uid].completed)
      && s.books.responses.Keys <= s.tasks.Keys
      && s.books.requests == (set uid | uid in s.books.responses && s.tasks[uid].phase != Registered)
      && s.books.tickets <= s.books.requests
  {
    RunKeeps(c, run, t);
    var s := run.states[t];
    forall uid | uid in s.tasks
      ensures uid in s.books.responses <==> !Replied(s, uid)
      ensures Replied(s, uid) <==> uid in s.state && s.state[uid].completed
      ensures uid in s.books.requests <==> uid in s.books.responses && s.tasks[uid].phase != Registered
      ensures uid in s.books.tickets ==> uid in s.books.requests
    {
      assert TaskOk(c, s, uid);
      if Replied(s, uid) {
        var i :| 0 <= i < |s.replies| && s.replies[i].uid == uid;
        assert ReplyOk(s, s.replies[i]);
      }
    }
  }

  // ----- UIDs -----------------------------------------------------------------------------------------

  /** One UID for every request read, and one burned for every reply. */
  ghost predicate UidsCounted(s: System)
  {
    s.nextUid == |s.tasks| + |s.replies|
  }

  lemma SameKeys(before: map<nat, Task>, after: map<nat, Task>)
    requires before.Keys == after.Keys
    ensures |before| == |after|
  {
    assert |before| == |before.Keys| && |after| == |after.Keys|;
  }

  lemma OneMoreKey(before: map<nat, Task>, uid: nat, task: Task)
    requires uid !in before
    ensures |before[uid := task]| == |before| + 1
  {
    assert before[uid := task].Keys == before.Keys + {uid};
    assert |before| == |before.Keys| && |before[uid := task]| == |before[uid := task].Keys|;
  }

  lemma CallCounts(c: Config, s: System, call: Callback, answer: Answer, noise: seq<Byte>)
    requires ValidConfig(c) && Inv(c, s)
    ensures var s' := AfterCall(s, call, answer, noise);
      s'.tasks == s.tasks && s'.nextUid - |s'.replies| == s.nextUid - |s.replies|
  {
    if call.ticket in s.state {
      var uid, t := call.ticket, s.state[call.ticket];
      var response := Response(call.segment, call.role, Some(answer));
      var t' := Accept(t, response);
      assert TaskOk(c, s, uid);
      if Fires(t, response) && Fits(t'.segments, t'.totalLength) {
        CompletedIs(c, s, uid, t', Noise(noise, t'.totalLength));
      }
    }
  }

  lemma WakeupCounts(c: Config, s: System, m: nat, packet: seq<Byte>, noise: seq<Byte>)
    requires ValidConfig(c) && Inv(c, s) && m < |s.pending|
    ensures var s' := AfterWakeup(s, m, packet, noise);
      s'.tasks == s.tasks && s'.nextUid - |s'.replies| == s.nextUid - |s.replies|
  {
    var w := Wake(s.pending[m], Deliver(packet));
    if w.call.Some? {
      ForgetKeeps(c, s, m, w.pending);
      CallCounts(c, s.(pending := s.pending[m := w.pending]), w.call.value.0, w.call.value.1, noise);
    }
  }

  lemma NewRequestCounts(c: Config, s: System, r: Request)
    requires ValidConfig(c) && Tasks(c, s) && UidsCounted(s)
    ensures UidsCounted(AfterNewRequest(s, r))
  {
    assert s.nextUid in s.tasks ==> TaskOk(c, s, s.nextUid);
    OneMoreKey(s.tasks, s.nextUid, Task(r, Registered));
  }

  /** What no step but these touches. */
  lemma OtherStepsCount(c: Config, s: System, l: Label)
    requires ValidConfig(c) && Enabled(c, s, l) && !l.NewRequest? && !l.Wakeup?
    ensures var s' := Apply(c, s, l);
      s'.nextUid == s.nextUid && s'.replies == s.replies && s'.tasks.Keys == s.tasks.Keys
  {
  }

  lemma StepCounts(c: Config, s: System, l: Label)
    requires ValidConfig(c) && Inv(c, s) && Enabled(c, s, l) && UidsCounted(s)
    ensures UidsCounted(Apply(c, s, l))
  {
    if l.NewRequest? {
      NewRequestCounts(c, s, l.request);
    } else if l.Wakeup? {
      WakeupCounts(c, s, l.minion, l.packet, l.noise);
    } else {
      OtherStepsCount(c, s, l);
      SameKeys(s.tasks, Apply(c, s, l).tasks);
    }
  }

  lemma NextCounted(c: Config, run: Run, t: nat)
    requires ValidConfig(c) && IsRun(c, run) && t < |run.labels| && UidsCounted(run.states[t])
    ensures UidsCounted(run.states[t + 1])
  {
    RunKeeps(c, run, t);
    StepOfRun(c, run, t);
    StepCounts(c, run.states[t], run.labels[t]);
  }

  lemma {:induction false} CountedAt(c: Config, run: Run, t: nat)
    requires ValidConfig(c) && IsRun(c, run) && t < |run.states|
    ensures UidsCounted(run.states[t])
  {
    if t > 0 {
      CountedAt(c, run, t - 1);
      NextCounted(c, run, t - 1);
    }
  }

  /** In every run the UID counter is the number of requests read and replies sent. */
  lemma UidsAreCounted(c: Config, run: Run, t: nat)
    requires ValidConfig(c) && IsRun(c, run) && t < |run.states|
    ensures run.states[t].nextUid == |run.states[t].tasks| + |run.states[t].replies|
  {
    CountedAt(c, run, t);
  }
}
