/** How a completed read ticket puts the answers of its segments together
    (concrete/src/Ticket.cpp, the copy loop of `TryComplete`). */
module ReadAssembly {
  import opened Types
  import opened StripeSplitter
  import opened MirrorTicket

  /** The bytes copied for a segment. Bytes the answer does not have are left as
      they were in the buffer. */
  function Piece(seg: SegmentState): (r: seq<Byte>)
    ensures |r| <= seg.length
  {
    match Select(seg)
    case None => []
    case Some(answer) =>
      match answer.data
      case None => []
      case Some(d) => if |d| <= seg.length then d else d[..seg.length]
  }

  /** Every segment's piece lies inside a buffer of `total` bytes. */
  predicate Fits(segs: seq<SegmentState>, total: nat)
  {
    forall i | 0 <= i < |segs| :: segs[i].bufferOffset + segs[i].length <= total
  }

  /** The buffer after the copy loop, starting from whatever `new char[]` held. */
  function Assemble(init: seq<Byte>, segs: seq<SegmentState>): (r: seq<Byte>)
    requires Fits(segs, |init|)
    ensures |r| == |init|
  {
    if segs == [] then init
    else
      var last := segs[|segs| - 1];
      Overlay(Assemble(init, segs[..|segs| - 1]), last.bufferOffset, Piece(last))
  }

  /** What the dispatcher is given when the ticket completes in state `t`. */
  function ResultFor(uid: nat, t: State, init: seq<Byte>): TaskResult
    requires |init| == t.totalLength && Fits(t.segments, t.totalLength)
  {
    TaskResult(uid, Verdict(t), t.totalLength,
               if Verdict(t) && t.op == Read then Some(Assemble(init, t.segments)) else None)
  }

  /** One more result was passed on than before: that of the completed ticket `t`. */
  ghost predicate NotifiedOnce(before: seq<TaskResult>, after: seq<TaskResult>, uid: nat, t: State)
    requires Fits(t.segments, t.totalLength)
  {
    exists init: seq<Byte> | |init| == t.totalLength :: after == before + [ResultFor(uid, t, init)]
  }

  /** No segment but `i` covers byte `k` of the buffer. */
  ghost predicate Alone(segs: seq<SegmentState>, i: nat, k: nat)
  {
    forall j | 0 <= j < |segs| && j != i ::
      !(segs[j].bufferOffset <= k < segs[j].bufferOffset + segs[j].length)
  }

  /** Segment `i` copies `b` to byte `k` of the buffer. */
  ghost predicate Copies(segs: seq<SegmentState>, i: nat, k: nat, b: Byte)
  {
    && i < |segs|
    && segs[i].bufferOffset <= k < segs[i].bufferOffset + |Piece(segs[i])|
    && Piece(segs[i])[k - segs[i].bufferOffset] == b
  }

  /** A byte that one segment alone holds is that segment's. */
  lemma {:induction false} AssembleByte(init: seq<Byte>, segs: seq<SegmentState>, i: nat, k: nat, b: Byte)
    requires Fits(segs, |init|) && Alone(segs, i, k) && Copies(segs, i, k, b)
    ensures k < |init| && Assemble(init, segs)[k] == b
  {
    if i < |segs| - 1 {
      AssembleByte(init, segs[..|segs| - 1], i, k, b);
    }
  }

  /** OK answers carry the bytes `content` has at their segment's place. */
  ghost predicate Carries(rs: seq<Response>, segs: seq<Segment>, content: (nat, nat) -> Byte)
  {
    forall r | r in rs && r.segment < |segs| && Ok(r.message) ::
      var seg, data := segs[r.segment], r.message.value.data;
      && data.Some? && |data.value| == seg.length
      && forall j | 0 <= j < seg.length :: data.value[j] == content(seg.primary, seg.localOffset + j)
  }

  /** A recorded answer carries the bytes of its segment, if it is OK. */
  ghost predicate MessageHolds(m: Option<Answer>, seg: Segment, content: (nat, nat) -> Byte)
  {
    Ok(m) ==>
      && m.value.data.Some? && |m.value.data.value| == seg.length
      && forall j | 0 <= j < seg.length :: m.value.data.value[j] == content(seg.primary, seg.localOffset + j)
  }

  ghost predicate Holding(state: SegmentState, seg: Segment, content: (nat, nat) -> Byte)
  {
    && state.length == seg.length && state.bufferOffset == seg.bufferOffset
    && MessageHolds(state.primaryMsg, seg, content) && MessageHolds(state.backupMsg, seg, content)
  }

  lemma {:induction false} RunHolds(op: Op, total: nat, segs: seq<Segment>, rs: seq<Response>,
                                    content: (nat, nat) -> Byte)
    requires Carries(rs, segs, content)
    ensures var t := Run(Fresh(op, total, segs), rs);
      t.op == op && t.totalLength == total && HoldingAll(t, segs, content)
  {
    if rs != [] {
      var init, last := rs[..|rs| - 1], rs[|rs| - 1];
      assert forall r | r in init :: r in rs;
      RunHolds(op, total, segs, init, content);
      assert last in rs;
    }
  }

  ghost predicate HoldingAll(t: State, segs: seq<Segment>, content: (nat, nat) -> Byte)
  {
    && |t.segments| == |segs|
    && forall i | 0 <= i < |segs| :: Holding(t.segments[i], segs[i], content)
  }

  lemma PieceHolds(state: SegmentState, seg: Segment, content: (nat, nat) -> Byte, j: nat)
    requires Holding(state, seg, content) && Successful(Read, state) && j < seg.length
    ensures |Piece(state)| == seg.length
    ensures Piece(state)[j] == content(seg.primary, seg.localOffset + j)
  {
  }

  /** Segment `i` and no other holds byte `k` of the buffer, and puts it at local address
      `l` of minion `p`. */
  ghost predicate Located(segs: seq<Segment>, k: nat, i: nat, p: nat, l: nat)
  {
    && i < |segs| && Holds(segs[i], k)
    && segs[i].primary == p && segs[i].localOffset + (k - segs[i].bufferOffset) == l
    && forall j | 0 <= j < |segs| && Holds(segs[j], k) :: j == i
  }

  lemma LocatedAlone(segs: seq<Segment>, t: State, content: (nat, nat) -> Byte, k: nat, i: nat, p: nat, l: nat)
    requires HoldingAll(t, segs, content) && Located(segs, k, i, p, l)
    ensures Alone(t.segments, i, k)
  {
    forall j | 0 <= j < |segs| && j != i
      ensures !(t.segments[j].bufferOffset <= k < t.segments[j].bufferOffset + t.segments[j].length)
    {
      assert Holding(t.segments[j], segs[j], content);
      assert !Holds(segs[j], k);
    }
  }

  lemma LocatedCopies(segs: seq<Segment>, t: State, content: (nat, nat) -> Byte, k: nat, i: nat, p: nat, l: nat)
    requires HoldingAll(t, segs, content) && Located(segs, k, i, p, l)
    requires t.op == Read && Verdict(t)
    ensures Copies(t.segments, i, k, content(p, l))
  {
    assert Holding(t.segments[i], segs[i], content);
    assert Successful(Read, t.segments[i]);
    PieceHolds(t.segments[i], segs[i], content, k - segs[i].bufferOffset);
  }

  lemma SplitLocates(offset: nat, length: nat, chunk: nat, n: nat, k: nat)
    requires chunk > 0 && n > 0 && k < length
    ensures Located(Segments(offset, length, chunk, n), k, SegmentOf(offset, chunk, k),
                    (offset + k) / chunk, (offset + k) % chunk)
  {
    ByteInOneSegment(offset, length, chunk, n, k);
  }

  lemma SplitFits(offset: nat, length: nat, chunk: nat, n: nat, t: State, content: (nat, nat) -> Byte)
    requires chunk > 0 && n > 0 && HoldingAll(t, Segments(offset, length, chunk, n), content)
    ensures Fits(t.segments, length)
  {
    forall i | 0 <= i < |t.segments|
      ensures t.segments[i].bufferOffset + t.segments[i].length <= length
    {
      PieceBounds(offset, length, chunk, i);
      assert Holding(t.segments[i], Segments(offset, length, chunk, n)[i], content);
    }
  }

  function AtAddress(content: (nat, nat) -> Byte, chunk: nat, a: nat): Byte
    requires chunk > 0
  {
    content(a / chunk, a % chunk)
  }

  /** Byte `k` of the buffer is the byte `content` has at address `offset + k`. */
  ghost predicate IsContent(buffer: seq<Byte>, offset: nat, chunk: nat, content: (nat, nat) -> Byte)
    requires chunk > 0
  {
    forall k: nat | k < |buffer| :: buffer[k] == AtAddress(content, chunk, offset + k)
  }

  lemma AssembledByte(offset: nat, length: nat, chunk: nat, n: nat, t: State,
                      content: (nat, nat) -> Byte, init: seq<Byte>, k: nat)
    requires chunk > 0 && n > 0 && |init| == length
    requires HoldingAll(t, Segments(offset, length, chunk, n), content)
    requires t.op == Read && Fits(t.segments, length) && Verdict(t)
    requires k < length
    ensures Assemble(init, t.segments)[k] == AtAddress(content, chunk, offset + k)
  {
    var segs, i := Segments(offset, length, chunk, n), SegmentOf(offset, chunk, k);
    var p, l := (offset + k) / chunk, (offset + k) % chunk;
    SplitLocates(offset, length, chunk, n, k);
    LocatedCopies(segs, t, content, k, i, p, l);
    LocatedAlone(segs, t, content, k, i, p, l);
    AssembleByte(init, t.segments, i, k, content(p, l));
  }

  lemma AssembledContent(offset: nat, length: nat, chunk: nat, n: nat, t: State,
                         content: (nat, nat) -> Byte, init: seq<Byte>)
    requires chunk > 0 && n > 0 && |init| == length
    requires HoldingAll(t, Segments(offset, length, chunk, n), content)
    requires t.op == Read && Fits(t.segments, length) && Verdict(t)
    ensures IsContent(Assemble(init, t.segments), offset, chunk, content)
  {
    forall k: nat | k < length
      ensures Assemble(init, t.segments)[k] == AtAddress(content, chunk, offset + k)
    {
      AssembledByte(offset, length, chunk, n, t, content, init, k);
    }
  }

  /** Whatever order the answers come in, a successful read of `length` bytes at
      `offset` returns, as byte `k`, the byte that the mirrors hold at local address
      `(offset + k) % chunk` of chunk `(offset + k) / chunk`; nothing of the
      uninitialised buffer is left. */
  lemma ReadReturnsContent(offset: nat, length: nat, chunk: nat, n: nat, rs: seq<Response>,
                           content: (nat, nat) -> Byte, init: seq<Byte>)
    requires chunk > 0 && n > 0 && |init| == length
    requires Carries(rs, Segments(offset, length, chunk, n), content)
    ensures var t := Run(Fresh(Read, length, Segments(offset, length, chunk, n)), rs);
      && t.totalLength == length && Fits(t.segments, length)
      && (Verdict(t) ==>
            && ResultFor(0, t, init).buffer.Some?
            && |ResultFor(0, t, init).buffer.value| == length
            && IsContent(ResultFor(0, t, init).buffer.value, offset, chunk, content))
  {
    var segs := Segments(offset, length, chunk, n);
    var t := Run(Fresh(Read, length, segs), rs);
    RunHolds(Read, length, segs, rs, content);
    SplitFits(offset, length, chunk, n, t, content);
    if Verdict(t) {
      AssembledContent(offset, length, chunk, n, t, content, init);
    }
  }

  // ----- Which mirror's bytes a read returns -----------------------------------------------------

  lemma SliceIs(buffer: seq<Byte>, from: nat, data: seq<Byte>)
    requires from + |data| <= |buffer|
    requires forall k: nat | from <= k < from + |data| :: buffer[k] == data[k - from]
    ensures buffer[from..from + |data|] == data
  {
  }

  lemma SelectedCopies(segs: seq<SegmentState>, i: nat, k: nat, data: seq<Byte>)
    requires i < |segs| && Select(segs[i]).Some? && Select(segs[i]).value.data == Some(data)
    requires segs[i].bufferOffset <= k < segs[i].bufferOffset + segs[i].length && k < segs[i].bufferOffset + |data|
    ensures Copies(segs, i, k, data[k - segs[i].bufferOffset])
  {
  }

  /** A byte that segment `i` alone covers is the one its chosen answer has for it. */
  lemma SelectedByte(segs: seq<SegmentState>, init: seq<Byte>, i: nat, k: nat, data: seq<Byte>)
    requires Fits(segs, |init|) && i < |segs| && Alone(segs, i, k)
    requires Select(segs[i]).Some? && Select(segs[i]).value.data == Some(data)
    requires segs[i].bufferOffset <= k < segs[i].bufferOffset + segs[i].length && k < segs[i].bufferOffset + |data|
    ensures k < |init| && Assemble(init, segs)[k] == data[k - segs[i].bufferOffset]
  {
    SelectedCopies(segs, i, k, data);
    AssembleByte(init, segs, i, k, data[k - segs[i].bufferOffset]);
  }

  /** No other segment covers a byte that segment `i` covers. */
  ghost predicate SoleOwner(segs: seq<SegmentState>, i: nat)
  {
    i < |segs| && forall k: nat | segs[i].bufferOffset <= k < segs[i].bufferOffset + segs[i].length :: Alone(segs, i, k)
  }

  /** The piece of the buffer that one segment alone covers is what it copies. */
  lemma PieceIsSelected(segs: seq<SegmentState>, init: seq<Byte>, buffer: seq<Byte>, i: nat, from: nat, size: nat,
                        data: seq<Byte>)
    requires Fits(segs, |init|) && SoleOwner(segs, i) && buffer == Assemble(init, segs)
    requires Select(segs[i]).Some? && Select(segs[i]).value.data == Some(data)
    requires |data| >= size == segs[i].length && from == segs[i].bufferOffset
    ensures from + size <= |buffer| && buffer[from..from + size] == data[..size]
  {
    forall k: nat | from <= k < from + size
      ensures k < |buffer| && buffer[k] == data[..size][k - from]
    {
      assert Alone(segs, i, k);
      SelectedByte(segs, init, i, k, data);
    }
    SliceIs(buffer, from, data[..size]);
  }

  /** A byte that no segment's piece covers stays as the allocation left it. */
  lemma {:induction false} AssembleKeeps(init: seq<Byte>, segs: seq<SegmentState>, k: nat)
    requires Fits(segs, |init|) && k < |init|
    requires forall i | 0 <= i < |segs| ::
      !(segs[i].bufferOffset <= k < segs[i].bufferOffset + |Piece(segs[i])|)
    ensures Assemble(init, segs)[k] == init[k]
  {
    if segs != [] {
      var last := segs[|segs| - 1];
      AssembleKeeps(init, segs[..|segs| - 1], k);
      assert last == segs[|segs| - 1];
    }
  }

  /** Of the answers `seen`, number `j` is the one that segment `i` is read from: an OK answer of
      its primary, or an OK answer of its backup if the primary gave none. */
  ghost predicate Supplies(seen: seq<Response>, i: nat, j: nat)
  {
    && j < |seen| && seen[j].segment == i && Ok(seen[j].message)
    && (seen[j].role == Backup ==> !AnsweredOk(seen, i, Primary))
  }

  /** There is at most one. */
  lemma SupplierIsUnique(seen: seq<Response>, i: nat, j: nat, k: nat)
    requires Distinct(seen) && Supplies(seen, i, j) && Supplies(seen, i, k)
    ensures j == k
  {
    assert IsAnswer(seen[j], i, seen[j].role) && IsAnswer(seen[k], i, seen[k].role);
  }

  /** A segment that read successfully was read from such an answer. */
  lemma SelectIsSupplied(seg: SegmentState, seen: seq<Response>, i: nat) returns (j: nat)
    requires Records(seg, seen, i) && Ok(Select(seg))
    ensures Supplies(seen, i, j) && Select(seg) == seen[j].message
  {
    if AnsweredOk(seen, i, Primary) {
      var k: nat :| k < |seen| && IsAnswer(seen[k], i, Primary) && Ok(seen[k].message);
      OkIsAnswer(seen, i, Primary);
      j := k;
    } else {
      var k: nat :| k < |seen| && IsAnswer(seen[k], i, Backup);
      j := k;
    }
  }

  function Bytes(message: Option<Answer>): seq<Byte>
  {
    if message.Some? && message.value.data.Some? then message.value.data.value else []
  }

  /** Segment `seg` of the buffer holds `data`, as far as that goes, and then what was there. */
  ghost predicate FilledWith(buffer: seq<Byte>, init: seq<Byte>, seg: Segment, data: seq<Byte>)
    requires |buffer| == |init|
  {
    && seg.bufferOffset + seg.length <= |buffer|
    && forall x: nat | seg.bufferOffset <= x < seg.bufferOffset + seg.length ::
         buffer[x] == if x - seg.bufferOffset < |data| then data[x - seg.bufferOffset] else init[x]
  }

  /** The bytes of a segment that no other covers come from its chosen answer. */
  lemma SegmentIsFilled(segs: seq<SegmentState>, init: seq<Byte>, i: nat, seg: Segment)
    requires Fits(segs, |init|) && SoleOwner(segs, i)
    requires segs[i].bufferOffset == seg.bufferOffset && segs[i].length == seg.length
    ensures FilledWith(Assemble(init, segs), init, seg, Bytes(Select(segs[i])))
  {
    var data := Bytes(Select(segs[i]));
    forall x: nat | seg.bufferOffset <= x < seg.bufferOffset + seg.length
      ensures Assemble(init, segs)[x] == if x - seg.bufferOffset < |data| then data[x - seg.bufferOffset] else init[x]
    {
      assert Alone(segs, i, x);
      if x - seg.bufferOffset < |data| {
        SelectedByte(segs, init, i, x, data);
      } else {
        AssembleKeeps(init, segs, x);
      }
    }
  }

  /** In the ticket of a request each segment is the only owner of its bytes. */
  lemma SplitOwns(offset: nat, length: nat, chunk: nat, n: nat, t: State, i: nat)
    requires chunk > 0 && n > 0 && i < Count(offset, length, chunk)
    requires Sized(t, Segments(offset, length, chunk, n))
    ensures Fits(t.segments, length) && SoleOwner(t.segments, i)
  {
    var segs := Segments(offset, length, chunk, n);
    forall j | 0 <= j < |segs|
      ensures t.segments[j].bufferOffset + t.segments[j].length <= length
    {
      PieceBounds(offset, length, chunk, j);
    }
    forall k: nat | t.segments[i].bufferOffset <= k < t.segments[i].bufferOffset + t.segments[i].length
      ensures Alone(t.segments, i, k)
    {
      ByteInOneSegment(offset, length, chunk, n, k);
      assert Holds(segs[i], k);
      forall j | 0 <= j < |segs| && j != i
        ensures !(t.segments[j].bufferOffset <= k < t.segments[j].bufferOffset + t.segments[j].length)
      {
        assert !Holds(segs[j], k);
      }
    }
  }

  /** The ticket's segments have the places and sizes of `segs`. */
  ghost predicate Sized(t: State, segs: seq<Segment>)
  {
    && |t.segments| == |segs|
    && forall i | 0 <= i < |segs| ::
         t.segments[i].length == segs[i].length && t.segments[i].bufferOffset == segs[i].bufferOffset
  }

  lemma {:induction false} RunIsSized(op: Op, total: nat, segs: seq<Segment>, rs: seq<Response>)
    ensures Sized(Run(Fresh(op, total, segs), rs), segs)
  {
    if rs != [] {
      RunIsSized(op, total, segs, rs[..|rs| - 1]);
    }
  }

  /** What a read returns, said by its answers alone: once they settle it, and each segment has
      an OK one by then, the result is a buffer of the length asked for in which every
      segment holds the answer of its primary if that one was OK by then, and otherwise
      that of its backup. */
  lemma ReadTakesPrimaryFirst(offset: nat, length: nat, chunk: nat, n: nat, rs: seq<Response>, init: seq<Byte>,
                              uid: nat, i: nat, seen: seq<Response>)
    requires chunk > 0 && n > 0 && |init| == length && i < Count(offset, length, chunk)
    requires Distinct(rs) && Settled(Read, rs, Count(offset, length, chunk))
    requires seen == rs[..SettledAt(Read, rs, Count(offset, length, chunk))]
    requires EveryMirrorPairOk(seen, Count(offset, length, chunk))
    ensures var segs := Segments(offset, length, chunk, n);
      var t := Run(Fresh(Read, length, segs), rs);
      && t.totalLength == length && Fits(t.segments, length)
      && var result := ResultFor(uid, t, init);
         && result.uid == uid && result.result && result.length == length
         && result.buffer.Some? && |result.buffer.value| == length
         && (exists j: nat :: Supplies(seen, i, j))
         && forall j: nat | Supplies(seen, i, j) ::
              FilledWith(result.buffer.value, init, segs[i], Bytes(seen[j].message))
  {
    var segs := Segments(offset, length, chunk, n);
    var t := Run(Fresh(Read, length, segs), rs);
    RunIsSized(Read, length, segs, rs);
    SplitOwns(offset, length, chunk, n, t, i);
    Completion(Read, length, segs, rs);
    ReadVerdict(length, segs, rs);
    assert Successful(Read, t.segments[i]) && Records(t.segments[i], seen, i);
    var k := SelectIsSupplied(t.segments[i], seen, i);
    SegmentIsFilled(t.segments, init, i, segs[i]);
    forall j: nat | Supplies(seen, i, j)
      ensures j == k
    {
      SupplierIsUnique(seen, i, j, k);
    }
  }
}
