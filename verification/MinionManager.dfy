/** Fan-out of a request to its minions (concrete/src/MinionManager.cpp). */
module MinionManager {
  import opened Types
  import opened StripeSplitter
  import opened Codec

  /** One call of `MinionProxy::AddReadTask` or `AddWriteTask`. */
  datatype Outgoing = Outgoing(minion: nat, segment: nat, role: Role, message: Message)

  /** The bytes of `buffer` that a segment covers. */
  function Slice(buffer: seq<Byte>, seg: Segment): seq<Byte>
    requires seg.bufferOffset + seg.length <= |buffer|
  {
    buffer[seg.bufferOffset..seg.bufferOffset + seg.length]
  }

  /** What the buffer of a request must be: empty for a read, long enough for a write. */
  predicate BufferFits(op: Op, segs: seq<Segment>, buffer: seq<Byte>)
  {
    op == Write ==> forall i | 0 <= i < |segs| :: segs[i].bufferOffset + segs[i].length <= |buffer|
  }

  /** The `k`-th of the two sends per segment: primary first, then backup, both at
      the same local offset. A write request carries `trailer` behind its slice. */
  function SendAt(op: Op, uid: nat, segs: seq<Segment>, buffer: seq<Byte>, k: nat, trailer: Byte): Outgoing
    requires k < 2 * |segs| && BufferFits(op, segs, buffer)
  {
    var seg := segs[k / 2];
    Outgoing(if k % 2 == 0 then seg.primary else seg.backup,
             k / 2,
             if k % 2 == 0 then Primary else Backup,
             if op == Read then ReadSend(uid, seg.localOffset, seg.length)
             else WriteSend(uid, seg.localOffset, seg.length, Slice(buffer, seg) + [trailer]))
  }

  /** The first `count` sends of a request, in order. */
  function Sends(op: Op, uid: nat, segs: seq<Segment>, buffer: seq<Byte>, count: nat, trailer: Byte): seq<Outgoing>
    requires count <= 2 * |segs| && BufferFits(op, segs, buffer)
  {
    seq(count, k requires 0 <= k < count => SendAt(op, uid, segs, buffer, k, trailer))
  }

  /** `ValidateRange` with the wrap-around of its 64-bit sum. */
  predicate RangeAccepted(offset: nat, length: nat, driveSize: nat)
  {
    (offset + length) % U64 <= driveSize
  }

  /** The check rejects exactly the ranges that leave the drive, except for sums
      that wrap around to a number inside it. */
  lemma RangeCheckExact(offset: nat, length: nat, driveSize: nat)
    requires offset < U64 && length < U64 && driveSize < U64
    ensures (RangeAccepted(offset, length, driveSize) <==> offset + length <= driveSize)
       <==> !(U64 <= offset + length <= U64 + driveSize)
  {
  }

  /** The last address and one byte: the sum is 0, which is in every drive. */
  lemma WrappedRangeAccepted(driveSize: nat)
    requires driveSize < U64
    ensures RangeAccepted(U64 - 1, 1, driveSize) && U64 - 1 + 1 > driveSize
  {
  }

  class MinionManager {
    const chunk: nat
    const n: nat
    const driveSize: nat
    /** The calls made to the proxies, in order. */
    var sent: seq<Outgoing>

    ghost predicate Valid()
    {
      chunk > 0 && n > 0 && driveSize == n * chunk
    }

    constructor (chunk: nat, n: nat)
      requires chunk > 0 && n > 0
      ensures Valid() && this.chunk == chunk && this.n == n && sent == []
    {
      this.chunk, this.n, this.driveSize := chunk, n, n * chunk;
      sent := [];
    }

    /** `AddReadTask` and `AddWriteTask`: requests that fail the range check throw and send
        nothing; those in the drive send every segment to its primary and its backup. */
    method AddTask(op: Op, uid: nat, offset: nat, length: nat, buffer: seq<Byte>, trailer: Byte)
      returns (accepted: bool)
      requires Valid() && offset < U64 && length < U64 && (op == Write ==> |buffer| == length)
      modifies this
      ensures accepted <==> RangeAccepted(offset, length, driveSize)
      ensures !accepted ==> sent == old(sent)
      ensures accepted && offset + length <= driveSize ==>
        var segs := Segments(offset, length, chunk, n);
        && BufferFits(op, segs, buffer)
        && sent == old(sent) + Sends(op, uid, segs, buffer, 2 * |segs|, trailer)
    {
      accepted := (offset + length) % U64 <= driveSize;
      if !accepted {
        return;
      }
      var segs := Split(offset, length, chunk, n);
      SegmentsFit(op, offset, length, chunk, n, buffer);
      SendAll(op, uid, segs, buffer, trailer);
    }

    /** The loop over the segments. */
    method SendAll(op: Op, uid: nat, segs: seq<Segment>, buffer: seq<Byte>, trailer: Byte)
      requires BufferFits(op, segs, buffer)
      modifies this
      ensures sent == old(sent) + Sends(op, uid, segs, buffer, 2 * |segs|, trailer)
    {
      for i := 0 to |segs|
        invariant sent == old(sent) + Sends(op, uid, segs, buffer, 2 * i, trailer)
      {
        var seg := segs[i];
        var message := ReadSend(uid, seg.localOffset, seg.length);
        if op == Write {
          message := WriteSend(uid, seg.localOffset, seg.length, Slice(buffer, seg) + [trailer]);
        }
        NextTwoSends(op, uid, segs, buffer, i, trailer);
        sent := sent + [Outgoing(seg.primary, i, Primary, message), Outgoing(seg.backup, i, Backup, message)];
      }
    }
  }

  lemma NextTwoSends(op: Op, uid: nat, segs: seq<Segment>, buffer: seq<Byte>, i: nat, trailer: Byte)
    requires i < |segs| && BufferFits(op, segs, buffer)
    ensures Sends(op, uid, segs, buffer, 2 * i + 2, trailer)
      == Sends(op, uid, segs, buffer, 2 * i, trailer)
         + [SendAt(op, uid, segs, buffer, 2 * i, trailer), SendAt(op, uid, segs, buffer, 2 * i + 1, trailer)]
  {
  }

  lemma SegmentsFit(op: Op, offset: nat, length: nat, chunk: nat, n: nat, buffer: seq<Byte>)
    requires chunk > 0 && n > 0 && (op == Write ==> |buffer| == length)
    ensures BufferFits(op, Segments(offset, length, chunk, n), buffer)
  {
    var segs := Segments(offset, length, chunk, n);
    forall i | 0 <= i < |segs|
      ensures segs[i].bufferOffset + segs[i].length <= length
    {
      PieceBounds(offset, length, chunk, i);
    }
  }
}
