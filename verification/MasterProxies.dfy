/** The master's bookkeeping: pending callbacks (concrete/src/MinionProxy.cpp), pending
    requests and tickets (ResponseManager.cpp), pending replies (NBDProxy.cpp). */
module MasterProxies {
  import opened Types
  import opened Codec
  import opened MirrorTicket

  const REPLY_MAGIC: nat := 0x67446698
  const EIO: nat := 5

  // ----- MinionProxy ------------------------------------------------------------------

  /** The lambda given to a proxy: which ticket to tell, about which mirror. */
  datatype Callback = Callback(ticket: nat, segment: nat, role: Role)

  /** An answer message as a ticket sees it; requests are not registered with the
      master's factory. */
  function AnswerOf(m: Message): Option<Answer>
  {
    match m
    case ReadReceive(_, result, _, data) => Some(Answer(result, Some(data)))
    case WriteReceive(_, result) => Some(Answer(result, None))
    case _ => None
  }

  datatype Wakeup = Wakeup(pending: map<nat, Callback>, call: Option<(Callback, Answer)>)

  /** The pending map after a message, and the callback it fired. */
  function Wake(pending: map<nat, Callback>, message: Option<Message>): Wakeup
  {
    match message
    case None => Wakeup(pending, None)
    case Some(m) =>
      match AnswerOf(m)
      case None => Wakeup(pending, None)
      case Some(answer) =>
        if m.uid !in pending then Wakeup(pending, None)
        else Wakeup(pending - {m.uid}, Some((pending[m.uid], answer)))
  }

  class MinionProxy {
    var pending: map<nat, Callback>
    /** The datagrams sent. */
    var outbox: seq<seq<Byte>>

    constructor ()
      ensures pending == map[] && outbox == []
    {
      pending, outbox := map[], [];
    }

    /** `AddReadTask` and `AddWriteTask`: remember the callback under the UID, then send. */
    method AddTask(m: Message, onDone: Callback)
      requires WellFormed(m) && Size(m) < U32
      modifies this
      ensures pending == old(pending)[m.uid := onDone]
      ensures outbox == old(outbox) + [Encode(m)]
    {
      var buffer := ToBuffer(m);
      pending := pending[m.uid := onDone];
      outbox := outbox + [buffer[..]];
    }

    /** Drops what the guard rejects and answers nobody waits for; otherwise calls the
        one callback kept for the UID and forgets it. */
    method OnMinionFDWakeUp(packet: array<Byte>) returns (call: Option<(Callback, Answer)>)
      modifies this
      ensures Wakeup(pending, call) == Wake(old(pending), Receive(packet[..]))
      ensures outbox == old(outbox)
      ensures forall uid, result, length, data |
        Parses(packet[..], ReadReceive(uid, result, length, data)) && uid in old(pending) ::
        call == Some((old(pending)[uid], Answer(result, Some(data)))) && pending == old(pending) - {uid}
      ensures forall uid, result | Parses(packet[..], WriteReceive(uid, result)) && uid in old(pending) ::
        call == Some((old(pending)[uid], Answer(result, None))) && pending == old(pending) - {uid}
      ensures (forall message :: Parses(packet[..], message) ==>
          message.ReadSend? || message.WriteSend? || message.uid !in old(pending)) ==>
        call == None && pending == old(pending)
    {
      call := None;
      var received := FromBuffer(packet);
      match received {
        case None =>
        case Some(m) =>
          var answer := AnswerOf(m);
          if answer.Some? && m.uid in pending {
            call := Some((pending[m.uid], answer.value));
            pending := pending - {m.uid};
          }
      }
    }
  }

  // ----- NBDProxy ---------------------------------------------------------------------

  /** The low `width` bytes of `v`, highest first. */
  function NetworkWord(v: nat, width: nat): (r: seq<Byte>)
    ensures |r| == width
  {
    if width == 0 then [] else NetworkWord(v / 256, width - 1) + [v % 256]
  }

  function ReplyHeader(error: nat, handle: seq<Byte>): seq<Byte>
  {
    NetworkWord(REPLY_MAGIC, 4) + NetworkWord(error, 4) + handle
  }

  function ErrorOf(result: TaskResult): nat
  {
    if result.result then 0 else EIO
  }

  /** `length` bytes from the start of the buffer, as far as it goes. */
  function FirstBytes(buffer: seq<Byte>, length: nat): seq<Byte>
  {
    if length <= |buffer| then buffer[..length] else buffer
  }

  function PayloadOf(result: TaskResult): seq<Byte>
  {
    if result.result && result.buffer.Some? then FirstBytes(result.buffer.value, result.length) else []
  }

  /** The tables of ResponseManager and NBDProxy and the bytes sent to the kernel. */
  datatype Books = Books(
    requests: set<nat>,
    tickets: set<nat>,
    responses: map<nat, seq<Byte>>,
    stream: seq<Byte>)

  /** `OnNBDResponse`: a pending reply is sent and forgotten, any other UID ignored. */
  function Respond(b: Books, result: TaskResult): Books
  {
    if result.uid !in b.responses then b
    else b.(responses := b.responses - {result.uid},
            stream := b.stream + ReplyHeader(ErrorOf(result), b.responses[result.uid]) + PayloadOf(result))
  }

  /** The words of a reply header, byte by byte. */
  lemma HeaderWords()
    ensures NetworkWord(REPLY_MAGIC, 4) == [0x67, 0x44, 0x66, 0x98]
    ensures NetworkWord(0, 4) == [0, 0, 0, 0] && NetworkWord(EIO, 4) == [0, 0, 0, 5]
  {
    assert NetworkWord(0x67, 1) == [0x67];
    assert NetworkWord(0x6744, 2) == [0x67, 0x44];
    assert NetworkWord(0x674466, 3) == [0x67, 0x44, 0x66];
    assert NetworkWord(0, 1) == [0] && NetworkWord(0, 2) == [0, 0] && NetworkWord(0, 3) == [0, 0, 0];
  }

  /** What `after` has more than `before`, byte by byte: the magic of the NBD protocol's simple
      reply, the error 0 or 5 (`EIO`), the handle, and for a success its buffer. */
  ghost predicate OneReply(before: seq<Byte>, after: seq<Byte>, handle: seq<Byte>, result: TaskResult)
  {
    if !result.result then
      after == before + [0x67, 0x44, 0x66, 0x98, 0, 0, 0, 5] + handle
    else if result.buffer.None? then
      after == before + [0x67, 0x44, 0x66, 0x98, 0, 0, 0, 0] + handle
    else
      result.length == |result.buffer.value| ==>
        after == before + [0x67, 0x44, 0x66, 0x98, 0, 0, 0, 0] + handle + result.buffer.value
  }

  /** The bytes that answer a pending request, and that no other is touched. */
  lemma RespondOnWire(b: Books, result: TaskResult)
    ensures result.uid !in b.responses ==> Respond(b, result) == b
    ensures result.uid in b.responses ==>
      && OneReply(b.stream, Respond(b, result).stream, b.responses[result.uid], result)
      && Respond(b, result).responses == (map uid | uid in b.responses && uid != result.uid :: b.responses[uid])
      && Respond(b, result).requests == b.requests && Respond(b, result).tickets == b.tickets
  {
    HeaderWords();
    if result.uid in b.responses {
      var header := ReplyHeader(ErrorOf(result), b.responses[result.uid]);
      assert b.stream + header + [] == b.stream + header;
      assert Respond(b, result).responses == (map uid | uid in b.responses && uid != result.uid :: b.responses[uid]);
    }
  }

  /** `OnTicketDone`: a pending request and its ticket are forgotten and answered. */
  function TicketDone(b: Books, result: TaskResult): Books
  {
    if result.uid !in b.requests then b
    else Respond(b.(tickets := b.tickets - {result.uid}, requests := b.requests - {result.uid}), result)
  }

  class NBDProxy {
    /** The handle to answer with, per pending request. */
    var responses: map<nat, seq<Byte>>
    /** Everything sent to the kernel. */
    var stream: seq<Byte>

    constructor ()
      ensures responses == map[] && stream == []
    {
      responses, stream := map[], [];
    }

    /** The registration in `GetTaskArgs` (`emplace` keeps an older entry). */
    method Register(uid: nat, handle: seq<Byte>)
      modifies this
      ensures responses == if uid in old(responses) then old(responses) else old(responses)[uid := handle]
      ensures stream == old(stream)
    {
      if uid !in responses {
        responses := responses[uid := handle];
      }
    }

    method OnNBDResponse(result: TaskResult)
      modifies this
      ensures forall requests, tickets ::
        Books(requests, tickets, responses, stream)
        == Respond(Books(requests, tickets, old(responses), old(stream)), result)
      ensures result.uid in old(responses) ==> OneReply(old(stream), stream, old(responses)[result.uid], result)
      ensures result.uid in old(responses) ==> responses == old(responses) - {result.uid}
      ensures result.uid !in old(responses) ==> responses == old(responses) && stream == old(stream)
    {
      RespondOnWire(Books({}, {}, responses, stream), result);
      if result.uid in responses {
        var handle := responses[result.uid];
        responses := responses - {result.uid};
        stream := stream + ReplyHeader(ErrorOf(result), handle);
        if result.result && result.buffer.Some? {
          stream := stream + FirstBytes(result.buffer.value, result.length);
        }
      }
    }
  }

  // ----- ResponseManager ----------------------------------------------------------------

  class ResponseManager {
    var requests: set<nat>
    var tickets: set<nat>
    const proxy: NBDProxy

    ghost function Value(): Books
      reads this, proxy
    {
      Books(requests, tickets, proxy.responses, proxy.stream)
    }

    constructor (proxy: NBDProxy)
      ensures requests == {} && tickets == {} && this.proxy == proxy
    {
      requests, tickets := {}, {};
      this.proxy := proxy;
    }

    method OnNewTask(uid: nat)
      modifies this
      ensures Value() == old(Value()).(requests := old(requests) + {uid})
    {
      requests := requests + {uid};
    }

    method OnTicketCreate(uid: nat)
      modifies this
      ensures Value() == old(Value()).(tickets := old(tickets) + {uid})
    {
      tickets := tickets + {uid};
    }

    method OnTicketDone(result: TaskResult)
      modifies this, proxy
      ensures Value() == TicketDone(old(Value()), result)
      ensures result.uid !in old(requests) ==> Value() == old(Value())
      ensures result.uid in old(requests) ==>
        requests == old(requests) - {result.uid} && tickets == old(tickets) - {result.uid}
      ensures result.uid in old(requests) && result.uid in old(proxy.responses) ==>
        && proxy.responses == old(proxy.responses) - {result.uid}
        && OneReply(old(proxy.stream), proxy.stream, old(proxy.responses)[result.uid], result)
    {
      if result.uid in requests {
        tickets := tickets - {result.uid};
        requests := requests - {result.uid};
        proxy.OnNBDResponse(result);
      }
    }
  }
}
