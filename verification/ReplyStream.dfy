/** The kernel's side of the connection: it issues requests under handles that are free
    and reads the reply stream as the "Simple reply message" of the NBD protocol. */
module ReplyStream {
  import opened Types
  import opened Codec
  import opened MasterProxies
  import opened RaidSystem
  import opened RaidInvariant

  /** What the kernel remembers of an outstanding request. */
  datatype Expected = Expected(op: Op, length: nat)

  datatype KernelReply = KernelReply(handle: seq<Byte>, error: nat, payload: seq<Byte>)

  /** Outstanding requests by handle, bytes of the stream consumed, replies parsed. */
  datatype Kernel = Kernel(outstanding: map<seq<Byte>, Expected>, read: nat, parsed: seq<KernelReply>)

  function NetworkValue(s: seq<Byte>): nat
  {
    if s == [] then 0 else 256 * NetworkValue(s[..|s| - 1]) + s[|s| - 1]
  }

  lemma {:induction false} NetworkRoundTrip(v: nat, width: nat)
    requires v < Power256(width)
    ensures NetworkValue(NetworkWord(v, width)) == v
  {
    if width > 0 {
      NetworkRoundTrip(v / 256, width - 1);
      assert NetworkWord(v, width)[..width - 1] == NetworkWord(v / 256, width - 1);
    }
  }

  /** One reply at the start of `bytes`: a header of magic, error and handle, followed by
      data exactly for a successful read. `None` if the bytes are not a reply to an
      outstanding request. */
  function ParseReply(bytes: seq<Byte>, outstanding: map<seq<Byte>, Expected>): Option<(KernelReply, nat)>
  {
    if |bytes| < 16 || NetworkValue(bytes[..4]) != 0x67446698 || bytes[8..16] !in outstanding then None else
    var error, handle := NetworkValue(bytes[4..8]), bytes[8..16];
    var size := if error == 0 && outstanding[handle].op == Read then outstanding[handle].length else 0;
    if |bytes| < 16 + size then None
    else Some((KernelReply(handle, error, bytes[16..16 + size]), 16 + size))
  }

  function Seen(r: Reply): KernelReply
  {
    KernelReply(r.handle, r.error, r.payload)
  }

  /** A reply that the protocol allows for the request. */
  predicate Conforms(r: Reply, e: Expected)
  {
    && |r.handle| == 8 && r.error < U32
    && |r.payload| == if r.error == 0 && e.op == Read then e.length else 0
  }

  lemma ReplyRoundTrip(r: Reply, outstanding: map<seq<Byte>, Expected>, rest: seq<Byte>)
    requires r.handle in outstanding && Conforms(r, outstanding[r.handle])
    ensures ParseReply(BytesOf(r) + rest, outstanding) == Some((Seen(r), |BytesOf(r)|))
  {
    var bytes := BytesOf(r) + rest;
    assert Power256(4) == U32 by {
      assert Power256(2) == 65536;
    }
    NetworkRoundTrip(REPLY_MAGIC, 4);
    NetworkRoundTrip(r.error, 4);
    assert bytes[..4] == NetworkWord(REPLY_MAGIC, 4);
    assert bytes[4..8] == NetworkWord(r.error, 4);
    assert bytes[8..16] == r.handle;
    assert bytes[16..16 + |r.payload|] == r.payload;
  }

  // ----- The system together with the kernel -----------------------------------------------------

  datatype Step = Drive(move: Label) | Consume

  /** The kernel only uses handles that are free; otherwise the drive moves as it likes. */
  predicate CanStep(c: Config, s: System, k: Kernel, step: Step)
    requires ValidConfig(c)
  {
    match step
    case Drive(l) => Enabled(c, s, l) && (l.NewRequest? ==> l.request.handle !in k.outstanding)
    case Consume => k.read <= |s.books.stream| && ParseReply(s.books.stream[k.read..], k.outstanding).Some?
  }

  function StepSystem(c: Config, s: System, k: Kernel, step: Step): System
    requires ValidConfig(c) && CanStep(c, s, k, step)
  {
    match step
    case Drive(l) => Apply(c, s, l)
    case Consume => s
  }

  function KernelAfter(k: Kernel, l: Label): Kernel
  {
    if l.NewRequest? then
      k.(outstanding := k.outstanding[l.request.handle := Expected(l.request.op, l.request.length)])
    else k
  }

  function StepKernel(c: Config, s: System, k: Kernel, step: Step): Kernel
    requires ValidConfig(c) && CanStep(c, s, k, step)
  {
    match step
    case Drive(l) => KernelAfter(k, l)
    case Consume =>
      var (reply, size) := ParseReply(s.books.stream[k.read..], k.outstanding).value;
      Kernel(k.outstanding - {reply.handle}, k.read + size, k.parsed + [reply])
  }

  datatype Session = Session(systems: seq<System>, kernels: seq<Kernel>, steps: seq<Step>)

  ghost predicate SessionStep(c: Config, x: Session, t: nat)
    requires ValidConfig(c) && t < |x.steps| && t + 1 < |x.systems| && t + 1 < |x.kernels|
  {
    && CanStep(c, x.systems[t], x.kernels[t], x.steps[t])
    && x.systems[t + 1] == StepSystem(c, x.systems[t], x.kernels[t], x.steps[t])
    && x.kernels[t + 1] == StepKernel(c, x.systems[t], x.kernels[t], x.steps[t])
  }

  ghost predicate IsSession(c: Config, x: Session)
    requires ValidConfig(c)
  {
    && |x.systems| == |x.kernels| == |x.steps| + 1
    && x.systems[0] == Init(c) && x.kernels[0] == Kernel(map[], 0, [])
    && forall t | 0 <= t < |x.steps| :: SessionStep(c, x, t)
  }

  // ----- What holds between them --------------------------------------------------------------------

  /** The kernel has not seen a reply to the request yet. */
  ghost predicate Awaited(s: System, k: Kernel, uid: nat)
    requires |k.parsed| <= |s.replies|
  {
    uid in s.tasks && forall i | 0 <= i < |k.parsed| :: s.replies[i].uid != uid
  }

  /** The kernel still knows the request. */
  ghost predicate Remembered(s: System, k: Kernel, uid: nat)
    requires uid in s.tasks
  {
    var r := s.tasks[uid].request;
    r.handle in k.outstanding && k.outstanding[r.handle] == Expected(r.op, r.length)
  }

  ghost predicate InStep(s: System, k: Kernel)
  {
    && |k.parsed| <= |s.replies|
    && (forall i | 0 <= i < |k.parsed| :: k.parsed[i] == Seen(s.replies[i]))
    && k.read == |Serialize(s.replies[..|k.parsed|])|
    && (forall uid | Awaited(s, k, uid) :: Remembered(s, k, uid))
    && (forall u, v | Awaited(s, k, u) && Awaited(s, k, v) && u != v ::
          s.tasks[u].request.handle != s.tasks[v].request.handle)
  }

  lemma AppendReply(whole: seq<Byte>, stream: seq<Byte>, prefix: seq<Byte>, rest: seq<Byte>, more: seq<Byte>)
    requires stream == prefix + rest && whole == stream + more
    ensures whole == prefix + (rest + more)
  {
  }

  /** The first `i` replies are a prefix of the stream. */
  lemma {:induction false} SerializeSplit(rs: seq<Reply>, i: nat) returns (rest: seq<Byte>)
    requires i <= |rs|
    ensures Serialize(rs) == Serialize(rs[..i]) + rest
  {
    if i == |rs| {
      assert rs[..i] == rs;
      rest := [];
    } else {
      var init := rs[..|rs| - 1];
      var tail := SerializeSplit(init, i);
      assert init[..i] == rs[..i];
      rest := tail + BytesOf(rs[|rs| - 1]);
      AppendReply(Serialize(rs), Serialize(init), Serialize(rs[..i]), tail, BytesOf(rs[|rs| - 1]));
    }
  }

  /** What follows the first `i` replies is reply `i`. */
  lemma NextReply(rs: seq<Reply>, i: nat) returns (rest: seq<Byte>)
    requires i < |rs|
    ensures |Serialize(rs[..i])| <= |Serialize(rs)|
    ensures Serialize(rs)[|Serialize(rs[..i])|..] == BytesOf(rs[i]) + rest
  {
    rest := SerializeSplit(rs, i + 1);
    assert rs[..i + 1][..i] == rs[..i];
    assert Serialize(rs[..i + 1]) == Serialize(rs[..i]) + BytesOf(rs[i]);
    assert Serialize(rs) == Serialize(rs[..i]) + (BytesOf(rs[i]) + rest);
  }

  lemma ReplyConforms(c: Config, s: System, i: nat)
    requires ValidConfig(c) && Tasks(c, s) && Replies(s) && i < |s.replies|
    ensures var r := s.replies[i];
      && r.uid in s.tasks && r.handle == s.tasks[r.uid].request.handle
      && Conforms(r, Expected(s.tasks[r.uid].request.op, s.tasks[r.uid].request.length))
  {
    assert ReplyOk(s, s.replies[i]);
    assert TaskOk(c, s, s.replies[i].uid);
  }

  /** The next reply, as the kernel will read it. */
  lemma NextReplyParses(c: Config, s: System, k: Kernel)
    requires ValidConfig(c) && Tasks(c, s) && Replies(s) && InStep(s, k)
    ensures k.read <= |s.books.stream|
    ensures |k.parsed| == |s.replies| ==> k.read == |s.books.stream|
    ensures |k.parsed| < |s.replies| ==>
      var r := s.replies[|k.parsed|];
      && Awaited(s, k, r.uid)
      && ParseReply(s.books.stream[k.read..], k.outstanding) == Some((Seen(r), |BytesOf(r)|))
  {
    var i := |k.parsed|;
    if i < |s.replies| {
      var r := s.replies[i];
      var rest := NextReply(s.replies, i);
      ReplyConforms(c, s, i);
      assert Awaited(s, k, r.uid);
      assert Remembered(s, k, r.uid);
      ReplyRoundTrip(r, k.outstanding, rest);
    } else {
      assert s.replies[..i] == s.replies;
    }
  }

  lemma ReadMoves(s: System, k: Kernel, k': Kernel, r: Reply)
    requires InStep(s, k) && |k.parsed| < |s.replies| && r == s.replies[|k.parsed|]
    requires Awaited(s, k, r.uid) && r.handle == s.tasks[r.uid].request.handle
    requires k' == Kernel(k.outstanding - {r.handle}, k.read + |BytesOf(r)|, k.parsed + [Seen(r)])
    ensures InStep(s, k')
  {
    var i := |k.parsed|;
    assert s.replies[..i + 1][..i] == s.replies[..i];
    forall uid | Awaited(s, k', uid)
      ensures Awaited(s, k, uid) && Remembered(s, k', uid)
    {
      assert s.replies[i].uid != uid;
      AwaitedLess(s, k, k', uid);
      assert Remembered(s, k, uid);
    }
  }

  lemma ConsumeIs(c: Config, s: System, k: Kernel, r: Reply)
    requires ValidConfig(c) && CanStep(c, s, k, Consume)
    requires ParseReply(s.books.stream[k.read..], k.outstanding) == Some((Seen(r), |BytesOf(r)|))
    ensures StepKernel(c, s, k, Consume)
            == Kernel(k.outstanding - {r.handle}, k.read + |BytesOf(r)|, k.parsed + [Seen(r)])
  {
  }

  lemma NothingToRead(c: Config, s: System, k: Kernel)
    requires ValidConfig(c) && k.read == |s.books.stream|
    ensures !CanStep(c, s, k, Consume)
  {
    assert s.books.stream[k.read..] == [];
  }

  lemma ReadKeeps(c: Config, s: System, k: Kernel)
    requires ValidConfig(c) && Tasks(c, s) && Replies(s) && InStep(s, k) && CanStep(c, s, k, Consume)
    ensures InStep(s, StepKernel(c, s, k, Consume))
  {
    NextReplyParses(c, s, k);
    if |k.parsed| == |s.replies| {
      NothingToRead(c, s, k);
    } else {
      var r := s.replies[|k.parsed|];
      ReplyConforms(c, s, |k.parsed|);
      ConsumeIs(c, s, k, r);
      ReadMoves(s, k, StepKernel(c, s, k, Consume), r);
    }
  }

  lemma AwaitedLess(s: System, k: Kernel, k': Kernel, uid: nat)
    requires |k.parsed| <= |k'.parsed| <= |s.replies| && Awaited(s, k', uid)
    ensures Awaited(s, k, uid)
  {
  }

  /** What a step of the drive does to requests and replies. */
  ghost predicate Moved(s: System, l: Label, s': System)
  {
    && s.replies <= s'.replies
    && (l.NewRequest? ==> s.nextUid !in s.tasks && s'.tasks.Keys == s.tasks.Keys + {s.nextUid})
    && (l.NewRequest? ==> s'.tasks[s.nextUid].request == l.request)
    && (!l.NewRequest? ==> s'.tasks.Keys == s.tasks.Keys)
    && (forall uid | uid in s.tasks :: s'.tasks[uid].request == s.tasks[uid].request)
  }

  lemma DriveStep(c: Config, s: System, l: Label)
    requires ValidConfig(c) && Tasks(c, s) && Enabled(c, s, l)
    ensures Moved(s, l, Apply(c, s, l))
  {
    match l
    case NewRequest(r) => assert s.nextUid in s.tasks ==> TaskOk(c, s, s.nextUid);
    case Announce(u) =>
    case OpenTicket(u) => OpenTicketReplies(c, s, u);
    case Send(u, trailer) => SendReplies(c, s, u, trailer);
    case Serve(m, packet, good, noise) => ServeReplies(s, m, packet, good, noise);
    case Wakeup(m, packet, noise) => WakeupReplies(s, m, packet, noise);
  }

  lemma OpenTicketReplies(c: Config, s: System, u: nat)
    requires ValidConfig(c) && u in s.tasks
    ensures var s' := AfterOpenTicket(c, s, u);
      s'.replies == s.replies && s'.tasks.Keys == s.tasks.Keys
      && forall uid | uid in s.tasks :: s'.tasks[uid].request == s.tasks[uid].request
  {
  }

  lemma SendReplies(c: Config, s: System, u: nat, trailer: Byte)
    requires ValidConfig(c) && CanSend(c, s, u)
    ensures var s' := AfterSend(c, s, u, trailer);
      s'.replies == s.replies && s'.tasks.Keys == s.tasks.Keys
      && forall uid | uid in s.tasks :: s'.tasks[uid].request == s.tasks[uid].request
  {
  }

  lemma ServeReplies(s: System, m: nat, packet: seq<Byte>, good: bool, noise: seq<Byte>)
    requires m < |s.stores|
    ensures AfterServe(s, m, packet, good, noise).replies == s.replies
    ensures AfterServe(s, m, packet, good, noise).tasks == s.tasks
  {
  }

  lemma WakeupReplies(s: System, m: nat, packet: seq<Byte>, noise: seq<Byte>)
    requires m < |s.pending|
    ensures s.replies <= AfterWakeup(s, m, packet, noise).replies
    ensures AfterWakeup(s, m, packet, noise).tasks == s.tasks
  {
  }

  lemma StillAwaited(s: System, k: Kernel, l: Label, s': System, uid: nat)
    requires InStep(s, k) && Moved(s, l, s') && Awaited(s', KernelAfter(k, l), uid)
    ensures uid in s.tasks ==> Awaited(s, k, uid) && Remembered(s, k, uid)
    ensures uid !in s.tasks ==> l.NewRequest? && uid == s.nextUid
  {
    if uid in s.tasks {
      forall i | 0 <= i < |k.parsed|
        ensures s.replies[i].uid != uid
      {
        assert s'.replies[i] == s.replies[i];
      }
      assert Awaited(s, k, uid);
    }
  }

  lemma DriveMoves(s: System, k: Kernel, l: Label, s': System)
    requires InStep(s, k) && Moved(s, l, s')
    requires l.NewRequest? ==> l.request.handle !in k.outstanding
    ensures InStep(s', KernelAfter(k, l))
  {
    var k' := KernelAfter(k, l);
    assert s'.replies[..|k.parsed|] == s.replies[..|k.parsed|];
    forall uid | Awaited(s', k', uid)
      ensures Remembered(s', k', uid)
    {
      StillAwaited(s, k, l, s', uid);
    }
    forall u, v | Awaited(s', k', u) && Awaited(s', k', v) && u != v
      ensures s'.tasks[u].request.handle != s'.tasks[v].request.handle
    {
      StillAwaited(s, k, l, s', u);
      StillAwaited(s, k, l, s', v);
    }
  }

  lemma StepOfSession(c: Config, x: Session, t: nat)
    requires ValidConfig(c) && t < |x.steps| && t + 1 < |x.systems| && t + 1 < |x.kernels|
    requires SessionStep(c, x, t) && Inv(c, x.systems[t]) && InStep(x.systems[t], x.kernels[t])
    ensures InStep(x.systems[t + 1], x.kernels[t + 1])
  {
    var s, k := x.systems[t], x.kernels[t];
    match x.steps[t]
    case Drive(l) =>
      DriveStep(c, s, l);
      DriveMoves(s, k, l, Apply(c, s, l));
    case Consume =>
      ReadKeeps(c, s, k);
  }

  lemma {:induction false} SystemKeeps(c: Config, x: Session, t: nat)
    requires ValidConfig(c) && IsSession(c, x) && t < |x.systems|
    ensures Inv(c, x.systems[t])
  {
    if t == 0 {
      InitOk(c);
    } else {
      SystemKeeps(c, x, t - 1);
      NextInv(c, x, t - 1);
    }
  }

  lemma NextInv(c: Config, x: Session, t: nat)
    requires ValidConfig(c) && IsSession(c, x) && t < |x.steps|
    requires Inv(c, x.systems[t])
    ensures Inv(c, x.systems[t + 1])
  {
    assert SessionStep(c, x, t);
    match x.steps[t]
    case Drive(l) => StepKeeps(c, x.systems[t], l);
    case Consume =>
  }

  /** In every state of every session the drive and the kernel agree. */
  lemma {:induction false} SessionKeeps(c: Config, x: Session, t: nat)
    requires ValidConfig(c) && IsSession(c, x) && t < |x.systems|
    ensures InStep(x.systems[t], x.kernels[t])
  {
    if t == 0 {
      FreshInStep(c);
    } else {
      SessionKeeps(c, x, t - 1);
      NextInStep(c, x, t - 1);
    }
  }

  lemma NextInStep(c: Config, x: Session, t: nat)
    requires ValidConfig(c) && IsSession(c, x) && t < |x.steps|
    requires InStep(x.systems[t], x.kernels[t])
    ensures InStep(x.systems[t + 1], x.kernels[t + 1])
  {
    SystemKeeps(c, x, t);
    assert SessionStep(c, x, t);
    StepOfSession(c, x, t);
  }

  lemma FreshInStep(c: Config)
    requires ValidConfig(c)
    ensures InStep(Init(c), Kernel(map[], 0, []))
  {
  }

  /** In every state of every session the kernel has parsed exactly the first replies
      sent, and what it has not consumed starts with exactly the next reply, or is
      empty if there is none. */
  lemma StreamParses(c: Config, x: Session, t: nat)
    requires ValidConfig(c) && IsSession(c, x) && t < |x.systems|
    ensures var s, k := x.systems[t], x.kernels[t];
      && |k.parsed| <= |s.replies| && k.read <= |s.books.stream|
      && (forall i | 0 <= i < |k.parsed| :: k.parsed[i] == Seen(s.replies[i]))
      && (|k.parsed| == |s.replies| ==> s.books.stream[k.read..] == [])
      && (|k.parsed| < |s.replies| ==>
            ParseReply(s.books.stream[k.read..], k.outstanding)
            == Some((Seen(s.replies[|k.parsed|]), |BytesOf(s.replies[|k.parsed|])|)))
  {
    SystemKeeps(c, x, t);
    SessionKeeps(c, x, t);
    NextReplyParses(c, x.systems[t], x.kernels[t]);
  }
}
