/** One write request of any length: which of its bytes the mirrors hold once every
    minion has applied its share in the order sent. */
module WideRequests {
  import opened Types
  import opened Arithmetic
  import opened StripeSplitter
  import opened MinionManager
  import opened LocalWrites

  /** The minion that send `k` of a request goes to, if the request starts in chunk `first`. */
  function Target(first: nat, n: nat, k: nat): nat
    requires n > 0
  {
    if k % 2 == 0 then first + k / 2 else BackupIndex(first + k / 2, n)
  }

  /** The local write of send `k`. */
  function WriteAt(offset: nat, data: seq<Byte>, chunk: nat, n: nat, k: nat): LocalWrite
    requires chunk > 0 && n > 0 && k < 2 * Count(offset, |data|, chunk)
  {
    PieceBounds(offset, |data|, chunk, k / 2);
    LocalWrite(Target(offset / chunk, n, k), LocalStart(offset, chunk, k / 2),
               data[BufferStart(offset, chunk, k / 2)..BufferEnd(offset, |data|, chunk, k / 2)])
  }

  /** All local writes of a request, in the order of its sends. */
  function RequestWrites(offset: nat, data: seq<Byte>, chunk: nat, n: nat): (r: seq<LocalWrite>)
    requires chunk > 0 && n > 0
    ensures |r| == 2 * Count(offset, |data|, chunk)
  {
    seq(2 * Count(offset, |data|, chunk), k requires 0 <= k < 2 * Count(offset, |data|, chunk) =>
      WriteAt(offset, data, chunk, n, k))
  }

  /** What a minion does with a write message that arrives and is applied. */
  function AppliedBy(out: Outgoing): LocalWrite
    requires out.message.WriteSend? && |out.message.data| >= out.message.length
  {
    LocalWrite(out.minion, out.message.offset, out.message.data[..out.message.length])
  }

  /** These are the writes of the messages MinionManager sends, whatever the UID and the
      trailing byte. */
  lemma WritesOfSends(offset: nat, data: seq<Byte>, chunk: nat, n: nat, uid: nat, trailer: Byte, k: nat)
    requires chunk > 0 && n > 0 && k < 2 * Count(offset, |data|, chunk)
    requires BufferFits(Write, Segments(offset, |data|, chunk, n), data)
    ensures AppliedBy(SendAt(Write, uid, Segments(offset, |data|, chunk, n), data, k, trailer))
      == RequestWrites(offset, data, chunk, n)[k]
  {
    PieceBounds(offset, |data|, chunk, k / 2);
  }

  // ----- Which bytes of the buffer belong on a cell ------------------------------------------------

  /** The position in the buffer of local byte `l` of the `i`-th chunk of the range. */
  function Position(offset: nat, chunk: nat, i: nat, l: nat): int
    requires chunk > 0
  {
    Times(i, chunk) + l - offset % chunk
  }

  lemma PositionInPiece(offset: nat, chunk: nat, i: nat, l: nat)
    requires chunk > 0
    ensures Position(offset, chunk, i, l) == BufferStart(offset, chunk, i) + l - LocalStart(offset, chunk, i)
  {
    TimesIsProduct(i, chunk);
  }

  /** The range contains local byte `l` of its `i`-th chunk. */
  predicate Contains(offset: nat, length: nat, chunk: nat, i: nat, l: nat)
    requires chunk > 0
  {
    0 <= Position(offset, chunk, i, l) < length
  }

  lemma PieceContains(offset: nat, length: nat, chunk: nat, i: nat, l: nat)
    requires chunk > 0 && i < Count(offset, length, chunk) && l < chunk
    ensures var local, size := LocalStart(offset, chunk, i),
                               BufferEnd(offset, length, chunk, i) - BufferStart(offset, chunk, i);
      local <= l < local + size <==> Contains(offset, length, chunk, i, l)
  {
    PieceBounds(offset, length, chunk, i);
    PieceLength(offset, length, chunk, i);
    PositionInPiece(offset, chunk, i, l);
  }

  /** Send `k` writes a cell exactly when it goes to that minion and the range contains
      that byte of its chunk, and writes the byte that belongs there. */
  lemma WriteHits(offset: nat, data: seq<Byte>, chunk: nat, n: nat, k: nat, m: nat, l: nat)
    requires chunk > 0 && n > 0 && k < 2 * Count(offset, |data|, chunk) && l < chunk
    ensures var w := WriteAt(offset, data, chunk, n, k);
      && (Hits(w, m, l) <==> m == Target(offset / chunk, n, k) && Contains(offset, |data|, chunk, k / 2, l))
      && (Hits(w, m, l) ==> ByteAt(w, l) == data[Position(offset, chunk, k / 2, l)])
  {
    PieceBounds(offset, |data|, chunk, k / 2);
    PieceContains(offset, |data|, chunk, k / 2, l);
    PositionInPiece(offset, chunk, k / 2, l);
  }

  /** Sends of an in-range request go to chunks of the drive and stay in the files. */
  lemma SendInDrive(offset: nat, data: seq<Byte>, chunk: nat, n: nat, k: nat)
    requires chunk > 0 && n > 0 && offset + |data| <= n * chunk && k < 2 * Count(offset, |data|, chunk)
    ensures offset / chunk + k / 2 < n
    ensures InFiles(WriteAt(offset, data, chunk, n, k), n, chunk)
  {
    SegmentTranslates(offset, |data|, chunk, n, k / 2);
    PieceBounds(offset, |data|, chunk, k / 2);
    NextMinion(offset / chunk + k / 2, n);
  }

  /** Every send goes to chunks of the drive. */
  ghost predicate InDrive(offset: nat, data: seq<Byte>, chunk: nat, n: nat)
    requires chunk > 0 && n > 0
  {
    forall k | 0 <= k < 2 * Count(offset, |data|, chunk) ::
      offset / chunk + k / 2 < n && InFiles(WriteAt(offset, data, chunk, n, k), n, chunk)
  }

  lemma RangeInDrive(offset: nat, data: seq<Byte>, chunk: nat, n: nat)
    requires chunk > 0 && n > 0 && offset + |data| <= n * chunk
    ensures InDrive(offset, data, chunk, n)
  {
    forall k | 0 <= k < 2 * Count(offset, |data|, chunk)
      ensures offset / chunk + k / 2 < n && InFiles(WriteAt(offset, data, chunk, n, k), n, chunk)
    {
      SendInDrive(offset, data, chunk, n, k);
    }
  }

  lemma LastChunkInDrive(offset: nat, data: seq<Byte>, chunk: nat, n: nat)
    requires chunk > 0 && n > 0 && InDrive(offset, data, chunk, n) && Count(offset, |data|, chunk) > 0
    ensures offset / chunk + Count(offset, |data|, chunk) <= n
  {
    var k := 2 * Count(offset, |data|, chunk) - 1;
    assert offset / chunk + k / 2 < n;
  }

  // ----- Which send is the last on a cell --------------------------------------------------------

  /** The files once every minion has applied the request. */
  function Written(stores: seq<seq<Byte>>, offset: nat, data: seq<Byte>, chunk: nat, n: nat): seq<seq<Byte>>
    requires chunk > 0 && n > 0
  {
    Replay(stores, RequestWrites(offset, data, chunk, n))
  }

  /** Cell `l` of minion `m` holds byte `v`. */
  ghost predicate Cell(stores: seq<seq<Byte>>, m: nat, l: nat, v: Byte)
  {
    m < |stores| && l < |stores[m]| && stores[m][l] == v
  }

  /** Send `e` of a request of `c` pieces, the first in chunk `first`, is the last one that
      writes the cell. */
  ghost predicate LastToLand(offset: nat, length: nat, chunk: nat, first: nat, c: nat, n: nat, e: nat, m: nat, l: nat)
    requires n > 0 && chunk > 0
  {
    && e < 2 * c
    && Target(first, n, e) == m && Contains(offset, length, chunk, e / 2, l)
    && forall f | e < f < 2 * c && Target(first, n, f) == m :: !Contains(offset, length, chunk, f / 2, l)
  }

  lemma LastSendWins(stores: seq<seq<Byte>>, offset: nat, data: seq<Byte>, chunk: nat, first: nat, c: nat, n: nat,
                     e: nat, m: nat, l: nat)
    requires chunk > 0 && n > 0 && InDrive(offset, data, chunk, n)
    requires Files(stores, n, chunk) && m < n && l < chunk
    requires first == offset / chunk && c == Count(offset, |data|, chunk)
    requires LastToLand(offset, |data|, chunk, first, c, n, e, m, l)
    ensures Cell(Written(stores, offset, data, chunk, n), m, l, data[Position(offset, chunk, e / 2, l)])
  {
    var ws := RequestWrites(offset, data, chunk, n);
    WriteHits(offset, data, chunk, n, e, m, l);
    forall f | e < f < |ws|
      ensures !Hits(ws[f], m, l)
    {
      WriteHits(offset, data, chunk, n, f, m, l);
    }
    CellIsLastHit(stores, ws, n, chunk, m, l, e);
  }

  /** Later sends hit the primary of chunk `p` only by wrapping round to minion 0, and
      the backup of `p` only as the primary of the next chunk. */
  lemma LaterSends(first: nat, p: nat, f: nat, n: nat)
    requires first <= p < n && first + f / 2 < n && n >= 2
    ensures var e := 2 * (p - first);
      && (e < f && Target(first, n, f) == p ==> p == 0 && f == 2 * n - 1)
      && (e + 1 < f && Target(first, n, f) == BackupIndex(p, n) ==> p + 1 < n && f == e + 2)
  {
    NextMinion(first + f / 2, n);
    NextMinion(p, n);
  }

  // ----- Reading back through the primaries and the backups -----------------------------------

  /** Where byte `k` of the buffer belongs. */
  lemma OwnPlace(offset: nat, data: seq<Byte>, chunk: nat, n: nat, k: nat)
    requires chunk > 0 && n > 0 && InDrive(offset, data, chunk, n) && k < |data|
    ensures var p, l, first := (offset + k) / chunk, (offset + k) % chunk, offset / chunk;
      && first <= p < n && l < chunk && p - first < Count(offset, |data|, chunk)
      && Position(offset, chunk, p - first, l) == k
      && BackupIndex(p, n) < n
  {
    ByteInOneSegment(offset, |data|, chunk, n, k);
    DivMonotone(offset, offset + k, chunk);
    LastChunkInDrive(offset, data, chunk, n);
    PositionInPiece(offset, chunk, SegmentOf(offset, chunk, k), (offset + k) % chunk);
    NextMinion((offset + k) / chunk, n);
  }

  /** `d` chunks further on. */
  lemma FurtherOn(offset: nat, chunk: nat, i: nat, d: nat, l: nat)
    requires chunk > 0
    ensures Position(offset, chunk, i + d, l) == Position(offset, chunk, i, l) + Times(d, chunk)
  {
    TimesSum(i, d, chunk);
  }

  /** A position inside the buffer belongs to a piece of the range. */
  lemma ContainsIsCounted(offset: nat, length: nat, chunk: nat, i: nat, l: nat)
    requires chunk > 0 && l < chunk && Contains(offset, length, chunk, i, l)
    ensures i < Count(offset, length, chunk)
  {
    var c := Count(offset, length, chunk);
    CeilDiv(offset % chunk + length, chunk, c);
    TimesIsProduct(i, chunk);
    if c <= i {
      MultipleOrder(c, i, chunk);
    }
  }

  /** Unless the range contains the cell's byte `n - 1` chunks further on, the primary's
      own send is the last on it. */
  lemma PrimaryKept(offset: nat, length: nat, chunk: nat, first: nat, c: nat, n: nat, p: nat, l: nat)
    requires chunk > 0 && n >= 2 && first + c <= n && first <= p < first + c
    requires Contains(offset, length, chunk, p - first, l)
    requires !Contains(offset, length, chunk, p - first + (n - 1), l)
    ensures LastToLand(offset, length, chunk, first, c, n, 2 * (p - first), p, l)
  {
    forall f | 2 * (p - first) < f < 2 * c && Target(first, n, f) == p
      ensures !Contains(offset, length, chunk, f / 2, l)
    {
      LaterSends(first, p, f, n);
      assert f / 2 == p - first + (n - 1);
    }
  }

  /** If it does, the last send of the request is. */
  lemma PrimaryOverwritten(offset: nat, length: nat, chunk: nat, first: nat, c: nat, n: nat, p: nat, l: nat)
    requires chunk > 0 && n >= 2 && first + c <= n && first <= p && p - first + (n - 1) < c
    requires Contains(offset, length, chunk, p - first + (n - 1), l)
    ensures p == first == 0 && LastToLand(offset, length, chunk, first, c, n, 2 * n - 1, p, l)
  {
    assert c == n && (2 * n - 1) / 2 == n - 1 && (2 * n - 1) % 2 == 1;
    NextMinion(n - 1, n);
  }

  lemma PrimaryCell(stores: seq<seq<Byte>>, offset: nat, data: seq<Byte>, chunk: nat, first: nat, c: nat, n: nat,
                    p: nat, l: nat, k: nat, far: nat)
    requires chunk > 0 && n >= 2 && InDrive(offset, data, chunk, n) && Files(stores, n, chunk)
    requires first == offset / chunk && c == Count(offset, |data|, chunk)
    requires first <= p < first + c && first + c <= n && l < chunk
    requires k < |data| && Position(offset, chunk, p - first, l) == k
    requires Position(offset, chunk, p - first + (n - 1), l) == far + k
    ensures Cell(Written(stores, offset, data, chunk, n), p, l,
                 if far + k < |data| then data[far + k] else data[k])
  {
    if far + k < |data| {
      ContainsIsCounted(offset, |data|, chunk, p - first + (n - 1), l);
      PrimaryOverwritten(offset, |data|, chunk, first, c, n, p, l);
      assert (2 * n - 1) / 2 == n - 1;
      LastSendWins(stores, offset, data, chunk, first, c, n, 2 * n - 1, p, l);
    } else {
      PrimaryKept(offset, |data|, chunk, first, c, n, p, l);
      LastSendWins(stores, offset, data, chunk, first, c, n, 2 * (p - first), p, l);
    }
  }

  /** What reading byte `k` from its primary gives after one request: byte `k`, unless
      the request wraps round the drive far enough for the backup of the last chunk to
      overwrite it, and then the byte `n - 1` chunks further. Exact in every case. */
  lemma PrimaryReadback(stores: seq<seq<Byte>>, offset: nat, data: seq<Byte>, chunk: nat, n: nat,
                        k: nat, p: nat, l: nat)
    requires chunk > 0 && n >= 2 && InDrive(offset, data, chunk, n) && Files(stores, n, chunk)
    requires k < |data| && p == (offset + k) / chunk && l == (offset + k) % chunk
    ensures Cell(Written(stores, offset, data, chunk, n), p, l,
                 if Times(n - 1, chunk) + k < |data| then data[Times(n - 1, chunk) + k] else data[k])
  {
    OwnPlace(offset, data, chunk, n, k);
    FurtherOn(offset, chunk, p - offset / chunk, n - 1, l);
    LastChunkInDrive(offset, data, chunk, n);
    PrimaryCell(stores, offset, data, chunk, offset / chunk, Count(offset, |data|, chunk), n, p, l, k,
                Times(n - 1, chunk));
  }

  /** Unless the range contains the same byte of the next chunk, the backup's own send is
      the last on its cell. */
  lemma BackupKept(offset: nat, length: nat, chunk: nat, first: nat, c: nat, n: nat, p: nat, l: nat)
    requires chunk > 0 && n >= 2 && first + c <= n && first <= p < first + c
    requires Contains(offset, length, chunk, p - first, l)
    requires !Contains(offset, length, chunk, p - first + 1, l)
    ensures LastToLand(offset, length, chunk, first, c, n, 2 * (p - first) + 1, BackupIndex(p, n), l)
  {
    forall f | 2 * (p - first) + 1 < f < 2 * c && Target(first, n, f) == BackupIndex(p, n)
      ensures !Contains(offset, length, chunk, f / 2, l)
    {
      LaterSends(first, p, f, n);
      assert f / 2 == p - first + 1;
    }
  }

  /** If it does, the send to the primary of that chunk is. */
  lemma BackupOverwritten(offset: nat, length: nat, chunk: nat, first: nat, c: nat, n: nat, p: nat, l: nat)
    requires chunk > 0 && n >= 2 && first + c <= n && first <= p && p - first + 1 < c
    requires Contains(offset, length, chunk, p - first + 1, l)
    ensures LastToLand(offset, length, chunk, first, c, n, 2 * (p - first) + 2, BackupIndex(p, n), l)
  {
    NextMinion(p, n);
    forall f | 2 * (p - first) + 2 < f < 2 * c
      ensures Target(first, n, f) != BackupIndex(p, n)
    {
      LaterSends(first, p, f, n);
    }
  }

  lemma BackupCell(stores: seq<seq<Byte>>, offset: nat, data: seq<Byte>, chunk: nat, first: nat, c: nat, n: nat,
                   p: nat, l: nat, k: nat)
    requires chunk > 0 && n >= 2 && InDrive(offset, data, chunk, n) && Files(stores, n, chunk)
    requires first == offset / chunk && c == Count(offset, |data|, chunk)
    requires first <= p < first + c && first + c <= n && l < chunk && BackupIndex(p, n) < n
    requires k < |data| && Position(offset, chunk, p - first, l) == k
    requires Position(offset, chunk, p - first + 1, l) == chunk + k
    ensures Cell(Written(stores, offset, data, chunk, n), BackupIndex(p, n), l,
                 if chunk + k < |data| then data[chunk + k] else data[k])
  {
    if chunk + k < |data| {
      ContainsIsCounted(offset, |data|, chunk, p - first + 1, l);
      BackupOverwritten(offset, |data|, chunk, first, c, n, p, l);
      LastSendWins(stores, offset, data, chunk, first, c, n, 2 * (p - first) + 2, BackupIndex(p, n), l);
    } else {
      BackupKept(offset, |data|, chunk, first, c, n, p, l);
      LastSendWins(stores, offset, data, chunk, first, c, n, 2 * (p - first) + 1, BackupIndex(p, n), l);
    }
  }

  /** The same for the backups: byte `k` is overwritten by the primary of the next
      chunk as soon as the request reaches one chunk further. */
  lemma BackupReadback(stores: seq<seq<Byte>>, offset: nat, data: seq<Byte>, chunk: nat, n: nat,
                       k: nat, p: nat, l: nat)
    requires chunk > 0 && n >= 2 && InDrive(offset, data, chunk, n) && Files(stores, n, chunk)
    requires k < |data| && p == (offset + k) / chunk && l == (offset + k) % chunk
    ensures Cell(Written(stores, offset, data, chunk, n), BackupIndex(p, n), l,
                 if chunk + k < |data| then data[chunk + k] else data[k])
  {
    OwnPlace(offset, data, chunk, n, k);
    LastChunkInDrive(offset, data, chunk, n);
    FurtherOn(offset, chunk, p - offset / chunk, 1, l);
    assert Times(1, chunk) == chunk;
    BackupCell(stores, offset, data, chunk, offset / chunk, Count(offset, |data|, chunk), n, p, l, k);
  }

  // ----- How long a request may be ----------------------------------------------------------------

  /** Reading the written range from the mirrors of `role` gives back the buffer. */
  ghost predicate ReadsBack(stores: seq<seq<Byte>>, offset: nat, data: seq<Byte>, chunk: nat, n: nat, role: Role)
    requires chunk > 0 && n > 0
  {
    forall k | 0 <= k < |data| ::
      ByteReadsBack(Written(stores, offset, data, chunk, n), offset + k, data[k], chunk, n, role)
  }

  /** The mirror of `role` holds `v` where the byte at address `a` belongs. */
  ghost predicate ByteReadsBack(stores: seq<seq<Byte>>, a: nat, v: Byte, chunk: nat, n: nat, role: Role)
    requires chunk > 0 && n > 0
  {
    Cell(stores, if role == Primary then a / chunk else BackupIndex(a / chunk, n), a % chunk, v)
  }

  /** A buffer whose first byte differs from all others. */
  function Marked(length: nat): (data: seq<Byte>)
    ensures |data| == length && forall k | 0 <= k < length :: data[k] == if k == 0 then 1 else 0
  {
    seq(length, k => if k == 0 then 1 else 0)
  }

  /** How far the mirrors of `role` can be trusted after one request. */
  function Reach(chunk: nat, n: nat, role: Role): nat
    requires n > 0
  {
    if role == Primary then Times(n - 1, chunk) else chunk
  }

  /** For a request in the drive, every buffer reads back from the primaries exactly if it
      is at most `n - 1` chunks long, and from the backups exactly if at most one chunk. */
  lemma ReadbackExact(stores: seq<seq<Byte>>, offset: nat, length: nat, chunk: nat, n: nat, role: Role)
    requires chunk > 0 && n >= 2 && offset + length <= n * chunk && Files(stores, n, chunk)
    ensures (forall data: seq<Byte> | |data| == length :: ReadsBack(stores, offset, data, chunk, n, role))
       <==> length <= Reach(chunk, n, role)
  {
    if length <= Reach(chunk, n, role) {
      forall data: seq<Byte> | |data| == length
        ensures ReadsBack(stores, offset, data, chunk, n, role)
      {
        RangeInDrive(offset, data, chunk, n);
        ReadbackWithin(stores, offset, data, chunk, n, role);
      }
    } else {
      RangeInDrive(offset, Marked(length), chunk, n);
      ReadbackBeyond(stores, offset, Marked(length), chunk, n, role);
    }
  }

  /** The same for any interleaving in which each minion applies its own writes in the
      order sent. */
  lemma SendOrderReadback(stores: seq<seq<Byte>>, offset: nat, data: seq<Byte>, chunk: nat, n: nat, role: Role,
                          applied: seq<LocalWrite>)
    requires chunk > 0 && n >= 2 && offset + |data| <= n * chunk && Files(stores, n, chunk)
    requires forall m: nat :: WritesFor(applied, m) == WritesFor(RequestWrites(offset, data, chunk, n), m)
    requires |data| <= Reach(chunk, n, role)
    ensures forall k | 0 <= k < |data| ::
      ByteReadsBack(Replay(stores, applied), offset + k, data[k], chunk, n, role)
  {
    OwnOrderDecides(stores, applied, RequestWrites(offset, data, chunk, n));
    RangeInDrive(offset, data, chunk, n);
    ReadbackWithin(stores, offset, data, chunk, n, role);
  }

  lemma ReachIsPositive(chunk: nat, n: nat, role: Role)
    requires chunk > 0 && n >= 2
    ensures Reach(chunk, n, role) >= chunk
  {
    assert Times(n - 1, chunk) == Times(n - 2, chunk) + chunk;
  }

  lemma ReadbackWithin(stores: seq<seq<Byte>>, offset: nat, data: seq<Byte>, chunk: nat, n: nat, role: Role)
    requires chunk > 0 && n >= 2 && InDrive(offset, data, chunk, n) && Files(stores, n, chunk)
    requires |data| <= Reach(chunk, n, role)
    ensures ReadsBack(stores, offset, data, chunk, n, role)
  {
    forall k | 0 <= k < |data|
      ensures ByteReadsBack(Written(stores, offset, data, chunk, n), offset + k, data[k], chunk, n, role)
    {
      var p, l := (offset + k) / chunk, (offset + k) % chunk;
      if role == Primary {
        PrimaryReadback(stores, offset, data, chunk, n, k, p, l);
      } else {
        BackupReadback(stores, offset, data, chunk, n, k, p, l);
      }
    }
  }

  lemma ReadbackBeyond(stores: seq<seq<Byte>>, offset: nat, data: seq<Byte>, chunk: nat, n: nat, role: Role)
    requires chunk > 0 && n >= 2 && InDrive(offset, data, chunk, n) && Files(stores, n, chunk)
    requires |data| > Reach(chunk, n, role) && data == Marked(|data|)
    ensures !ReadsBack(stores, offset, data, chunk, n, role)
  {
    var p: nat, l: nat := offset / chunk, offset % chunk;
    ReachIsPositive(chunk, n, role);
    if role == Primary {
      PrimaryReadback(stores, offset, data, chunk, n, 0, p, l);
    } else {
      BackupReadback(stores, offset, data, chunk, n, 0, p, l);
    }
    assert !ByteReadsBack(Written(stores, offset, data, chunk, n), offset + 0, data[0], chunk, n, role);
  }

  // ----- Order of the segment writes ----------------------------------------------------------------

  /** Two sends of a request of at most one chunk that hit the same cell write the same byte. */
  lemma ShortWritesAgree(offset: nat, data: seq<Byte>, chunk: nat, n: nat)
    requires chunk > 0 && n > 0 && |data| <= chunk && InDrive(offset, data, chunk, n)
    ensures Agree(RequestWrites(offset, data, chunk, n))
  {
    var ws := RequestWrites(offset, data, chunk, n);
    forall v, w, m, l | v in ws && w in ws && Hits(v, m, l) && Hits(w, m, l)
      ensures ByteAt(v, l) == ByteAt(w, l)
    {
      var e: nat :| e < |ws| && ws[e] == v;
      var f: nat :| f < |ws| && ws[f] == w;
      assert InFiles(v, n, chunk);
      SameByte(offset, data, chunk, n, e, f, m, l);
    }
  }

  lemma SameByte(offset: nat, data: seq<Byte>, chunk: nat, n: nat, e: nat, f: nat, m: nat, l: nat)
    requires chunk > 0 && n > 0 && |data| <= chunk && l < chunk
    requires e < 2 * Count(offset, |data|, chunk) && f < 2 * Count(offset, |data|, chunk)
    requires Hits(WriteAt(offset, data, chunk, n, e), m, l) && Hits(WriteAt(offset, data, chunk, n, f), m, l)
    ensures ByteAt(WriteAt(offset, data, chunk, n, e), l) == ByteAt(WriteAt(offset, data, chunk, n, f), l)
  {
    WriteHits(offset, data, chunk, n, e, m, l);
    WriteHits(offset, data, chunk, n, f, m, l);
    var low, high := if e / 2 < f / 2 then e / 2 else f / 2, if e / 2 < f / 2 then f / 2 else e / 2;
    FurtherOn(offset, chunk, low, high - low, l);
  }

  /** The segment writes of a request of at most one chunk commute: applied in any order
      they give the same files, and both mirrors read back the buffer. */
  lemma ShortRequestsCommute(stores: seq<seq<Byte>>, offset: nat, data: seq<Byte>, chunk: nat, n: nat,
                             order: seq<LocalWrite>)
    requires chunk > 0 && n >= 2 && offset + |data| <= n * chunk && |data| <= chunk && Files(stores, n, chunk)
    requires multiset(order) == multiset(RequestWrites(offset, data, chunk, n))
    ensures Replay(stores, order) == Written(stores, offset, data, chunk, n)
    ensures ReadsBack(stores, offset, data, chunk, n, Primary) && ReadsBack(stores, offset, data, chunk, n, Backup)
  {
    RangeInDrive(offset, data, chunk, n);
    ShortWritesAgree(offset, data, chunk, n);
    AgreeingWritesCommute(stores, RequestWrites(offset, data, chunk, n), order, n, chunk);
    ReachIsPositive(chunk, n, Primary);
    ReadbackWithin(stores, offset, data, chunk, n, Primary);
    ReadbackWithin(stores, offset, data, chunk, n, Backup);
  }

  /** The backup of the first segment, applied last of all. */
  function FirstBackupLast(offset: nat, data: seq<Byte>, chunk: nat, n: nat): seq<LocalWrite>
    requires chunk > 0 && n > 0 && Count(offset, |data|, chunk) > 0
  {
    var ws := RequestWrites(offset, data, chunk, n);
    [ws[0]] + ws[2..] + [ws[1]]
  }

  /** Beyond one chunk they do not: some buffer and some order give different files. */
  lemma LongRequestsDoNot(stores: seq<seq<Byte>>, offset: nat, data: seq<Byte>, chunk: nat, n: nat)
    requires chunk > 0 && n >= 2 && offset + |data| <= n * chunk && Files(stores, n, chunk)
    requires |data| > chunk && data == Marked(|data|)
    ensures Count(offset, |data|, chunk) > 0
    ensures var order := FirstBackupLast(offset, data, chunk, n);
      && multiset(order) == multiset(RequestWrites(offset, data, chunk, n))
      && Replay(stores, order) != Written(stores, offset, data, chunk, n)
  {
    RangeInDrive(offset, data, chunk, n);
    OwnPlace(offset, data, chunk, n, 0);
    var p: nat, l: nat := offset / chunk, offset % chunk;
    BackupReadback(stores, offset, data, chunk, n, 0, p, l);
    var ws, order := RequestWrites(offset, data, chunk, n), FirstBackupLast(offset, data, chunk, n);
    assert ws == [ws[0]] + [ws[1]] + ws[2..];
    assert forall w | w in order :: w in ws;
    BackupAppliedLast(stores, offset, data, chunk, n, order, p, l);
  }

  lemma BackupAppliedLast(stores: seq<seq<Byte>>, offset: nat, data: seq<Byte>, chunk: nat, n: nat,
                          order: seq<LocalWrite>, p: nat, l: nat)
    requires chunk > 0 && n >= 2 && InDrive(offset, data, chunk, n) && Files(stores, n, chunk)
    requires 0 < |data| && p == offset / chunk && l == offset % chunk && l < chunk && BackupIndex(p, n) < n
    requires Count(offset, |data|, chunk) > 0 && order != []
    requires forall w | w in order :: w in RequestWrites(offset, data, chunk, n)
    requires order[|order| - 1] == RequestWrites(offset, data, chunk, n)[1]
    ensures Cell(Replay(stores, order), BackupIndex(p, n), l, data[0])
  {
    var ws := RequestWrites(offset, data, chunk, n);
    forall w | w in order
      ensures InFiles(w, n, chunk)
    {
      var k: nat :| k < |ws| && ws[k] == w;
    }
    WriteHits(offset, data, chunk, n, 1, BackupIndex(p, n), l);
    CellIsLastHit(stores, order, n, chunk, BackupIndex(p, n), l, |order| - 1);
  }
}
