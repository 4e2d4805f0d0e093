/** The classes of concrete/src/UID.cpp and concrete/src/Ticket.cpp, proved against
    the completion logic on values. */
module Ticket {
  import opened Types
  import opened StripeSplitter
  import opened MirrorTicket
  import opened ReadAssembly

  /** The process-wide counter behind `UID()`. */
  class UidSource {
    var counter: nat

    constructor ()
      ensures counter == 0
    {
      counter := 0;
    }

    method Next() returns (id: nat)
      modifies this
      ensures id == old(counter) && counter == old(counter) + 1
    {
      id := counter;
      counter := counter + 1;
    }
  }

  class Ticket {
    const uid: nat
    const op: Op
    const totalLength: nat
    var segments: seq<SegmentState>
    var completed: bool
    /** Everything the ticket's dispatcher was notified of. */
    var notified: seq<TaskResult>

    ghost function Value(): State
      reads this
    {
      State(op, totalLength, segments, completed)
    }

    ghost predicate Valid()
      reads this
    {
      Fits(segments, totalLength)
    }

    constructor (uid: nat, op: Op, totalLength: nat, segs: seq<Segment>)
      requires forall s | s in segs :: s.bufferOffset + s.length <= totalLength
      ensures Valid() && Value() == MirrorTicket.Fresh(op, totalLength, segs) && this.uid == uid
      ensures notified == []
    {
      this.uid, this.op, this.totalLength := uid, op, totalLength;
      this.completed, this.notified := false, [];
      new;
      segments := [];
      for i := 0 to |segs|
        invariant segments == MirrorTicket.Fresh(op, totalLength, segs).segments[..i]
        invariant !completed && notified == []
      {
        segments := segments + [SegmentState(segs[i].length, segs[i].bufferOffset, false, false, None, None)];
      }
    }

    /** One answer: the state follows `Accept`, and exactly the answer that completes
        the ticket notifies the dispatcher, once, with the ticket's verdict; building
        that result uses up one UID. */
    method OnMirrorResponse(segment: nat, role: Role, message: Option<Answer>, ids: UidSource)
      requires Valid()
      modifies this, ids
      ensures Valid() && Value() == Accept(old(Value()), Response(segment, role, message))
      ensures var fires := Fires(old(Value()), Response(segment, role, message));
        && ids.counter == old(ids.counter) + (if fires then 1 else 0)
        && (!fires ==> notified == old(notified))
        && (fires ==> NotifiedOnce(old(notified), notified, uid, Value()))
    {
      if completed || segment >= |segments| {
        return;
      }
      segments := segments[segment := Record(segments[segment], role, message)];
      TryComplete(ids);
    }

    method TryComplete(ids: UidSource)
      requires Valid() && !completed
      modifies this, ids
      ensures Valid() && segments == old(segments)
      ensures completed <==> AllResolved(old(Value()))
      ensures !completed ==> notified == old(notified) && ids.counter == old(ids.counter)
      ensures completed ==> ids.counter == old(ids.counter) + 1
      ensures completed ==> NotifiedOnce(old(notified), notified, uid, Value())
    {
      for i := 0 to |segments|
        invariant forall j | 0 <= j < i :: Resolved(op, segments[j])
      {
        if !Resolved(op, segments[i]) {
          return;
        }
      }
      var success := true;
      for i := 0 to |segments|
        invariant success <==> forall j | 0 <= j < i :: Successful(op, segments[j])
      {
        success := success && Successful(op, segments[i]);
      }
      var burned := ids.Next();
      var result, init := MakeResult(success);
      completed := true;
      notified := notified + [result];
      assert result == ResultFor(uid, Value(), init);
    }

    /** The verdict and, for a successful read, a freshly allocated buffer; `init` is what
        the allocation happened to hold. */
    method MakeResult(success: bool) returns (result: TaskResult, ghost init: seq<Byte>)
      requires Valid() && (success <==> Verdict(Value()))
      ensures |init| == totalLength && result == ResultFor(uid, Value(), init)
      ensures result.uid == uid && result.result == success && result.length == totalLength
      ensures result.buffer.Some? <==> success && op == Read
      ensures result.buffer.Some? ==> |result.buffer.value| == totalLength
    {
      var memory := new Byte[totalLength];
      init := memory[..];
      result := TaskResult(uid, success, totalLength, None);
      if success && op == Read {
        Reassemble(memory);
        result := result.(buffer := Some(memory[..]));
      }
    }

    /** The copy loop over the result buffer, whatever it held before. */
    method Reassemble(memory: array<Byte>)
      requires Valid() && memory.Length == totalLength
      modifies memory
      ensures memory[..] == Assemble(old(memory[..]), segments)
    {
      for i := 0 to |segments|
        invariant memory[..] == Assemble(old(memory[..]), segments[..i])
      {
        CopyTo(memory, segments[i].bufferOffset, Piece(segments[i]));
        assert segments[..i + 1][..i] == segments[..i];
      }
      assert segments[..|segments|] == segments;
    }
  }

  /** `std::memcpy` into the result buffer. */
  method CopyTo(memory: array<Byte>, at: nat, data: seq<Byte>)
    requires at + |data| <= memory.Length
    modifies memory
    ensures memory[..] == Overlay(old(memory[..]), at, data)
  {
    for k := 0 to |data|
      invariant forall j | 0 <= j < memory.Length ::
        memory[j] == if at <= j < at + k then data[j - at] else old(memory[j])
    {
      memory[at + k] := data[k];
    }
  }
}
