/** Address translation of concrete/src/StripeSplitter.cpp: a byte range of the
    drive is cut at chunk boundaries into segments, each held by two minions. */
module StripeSplitter {
  import opened Arithmetic

  datatype Segment = Segment(
    localOffset: nat,
    length: nat,
    bufferOffset: nat,
    primary: nat,
    backup: nat)

  function PrimaryIndex(offset: nat, chunk: nat): nat
    requires chunk > 0
  {
    offset / chunk
  }

  function BackupIndex(primary: nat, n: nat): nat
    requires n > 0
  {
    (primary + 1) % n
  }

  /** How many chunks the range touches. */
  function Count(offset: nat, length: nat, chunk: nat): nat
    requires chunk > 0
  {
    if length == 0 then 0 else (offset % chunk + length + chunk - 1) / chunk
  }

  /** Where segment `i` starts in the request's buffer; the first one starts
      `offset % chunk` bytes into its chunk, the others at a chunk boundary. */
  function BufferStart(offset: nat, chunk: nat, i: nat): (r: nat)
    requires chunk > 0
    ensures i > 0 ==> r == i * chunk - offset % chunk
  {
    if i == 0 then 0 else MultipleStep(0, i, chunk); i * chunk - offset % chunk
  }

  function LocalStart(offset: nat, chunk: nat, i: nat): nat
    requires chunk > 0
  {
    if i == 0 then offset % chunk else 0
  }

  /** Where the buffer piece of segment `i` ends. */
  function BufferEnd(offset: nat, length: nat, chunk: nat, i: nat): nat
    requires chunk > 0
  {
    if i + 1 == Count(offset, length, chunk) then length else BufferStart(offset, chunk, i + 1)
  }

  /** Segment `i` of the range in closed form: no loop, no running totals. */
  function SegmentAt(offset: nat, length: nat, chunk: nat, n: nat, i: nat): Segment
    requires chunk > 0 && n > 0 && i < Count(offset, length, chunk)
  {
    PieceIsSome(offset, length, chunk, i);
    Segment(LocalStart(offset, chunk, i),
            BufferEnd(offset, length, chunk, i) - BufferStart(offset, chunk, i),
            BufferStart(offset, chunk, i),
            offset / chunk + i,
            BackupIndex(offset / chunk + i, n))
  }

  lemma PieceIsSome(offset: nat, length: nat, chunk: nat, i: nat)
    requires chunk > 0 && i < Count(offset, length, chunk)
    ensures BufferStart(offset, chunk, i) < BufferEnd(offset, length, chunk, i)
  {
    PieceBounds(offset, length, chunk, i);
  }

  function Segments(offset: nat, length: nat, chunk: nat, n: nat): (r: seq<Segment>)
    requires chunk > 0 && n > 0
    ensures |r| == Count(offset, length, chunk)
  {
    seq(Count(offset, length, chunk), i requires 0 <= i < Count(offset, length, chunk) =>
      SegmentAt(offset, length, chunk, n, i))
  }

  /** Segment `i` covers a non-empty piece that stays inside one chunk, and only
      the last one may stop short of the chunk's end. */
  lemma PieceBounds(offset: nat, length: nat, chunk: nat, i: nat)
    requires chunk > 0 && i < Count(offset, length, chunk)
    ensures BufferStart(offset, chunk, i) < BufferEnd(offset, length, chunk, i) <= length
    ensures var size := BufferEnd(offset, length, chunk, i) - BufferStart(offset, chunk, i);
      && LocalStart(offset, chunk, i) + size <= chunk
      && (i + 1 < Count(offset, length, chunk) ==> LocalStart(offset, chunk, i) + size == chunk)
  {
    var c, r := Count(offset, length, chunk), offset % chunk;
    CeilDiv(r + length, chunk, c);
    MultipleOrder(i, c - 1, chunk);
    Distribute(i, 1, chunk);
    if i + 1 < c {
      MultipleOrder(i + 1, c - 1, chunk);
    }
  }

  /** The address at which segment `i` starts lies in chunk `offset / chunk + i`. */
  lemma SegmentAddress(offset: nat, chunk: nat, i: nat)
    requires chunk > 0
    ensures var a := offset + BufferStart(offset, chunk, i);
      && a == (offset / chunk + i) * chunk + LocalStart(offset, chunk, i)
      && a / chunk == offset / chunk + i
      && a % chunk == LocalStart(offset, chunk, i)
  {
    DivMod(offset, chunk);
    Distribute(offset / chunk, i, chunk);
    var a := offset + BufferStart(offset, chunk, i);
    DivModUnique(a, chunk, offset / chunk + i, LocalStart(offset, chunk, i));
  }

  // ----- What the segments are -------------------------------------------------

  /** One segment is a non-empty piece of one chunk at the address it claims. */
  ghost predicate Translates(s: Segment, offset: nat, chunk: nat, n: nat)
    requires chunk > 0 && n > 0
  {
    && s.length > 0
    && s.localOffset + s.length <= chunk
    && s.primary * chunk + s.localOffset == offset + s.bufferOffset
    && s.backup == (s.primary + 1) % n
  }

  /** Segments tile `[0, length)` in order, without gap or overlap. */
  ghost predicate Tiles(segments: seq<Segment>, length: nat)
  {
    && (|segments| == 0 <==> length == 0)
    && (|segments| > 0 ==> segments[0].bufferOffset == 0)
    && (forall i | 0 < i < |segments| ::
          segments[i].bufferOffset == segments[i - 1].bufferOffset + segments[i - 1].length)
    && (|segments| > 0 ==>
          segments[|segments| - 1].bufferOffset + segments[|segments| - 1].length == length)
  }

  lemma SegmentTranslates(offset: nat, length: nat, chunk: nat, n: nat, i: nat)
    requires chunk > 0 && n > 0 && i < Count(offset, length, chunk)
    ensures Translates(SegmentAt(offset, length, chunk, n, i), offset, chunk, n)
    ensures offset + length <= n * chunk ==> SegmentAt(offset, length, chunk, n, i).primary < n
  {
    PieceBounds(offset, length, chunk, i);
    SegmentAddress(offset, chunk, i);
    QuotientBelow(offset + BufferStart(offset, chunk, i), chunk, n);
  }

  lemma SegmentsTile(offset: nat, length: nat, chunk: nat, n: nat)
    requires chunk > 0 && n > 0
    ensures Tiles(Segments(offset, length, chunk, n), length)
  {
    var segs := Segments(offset, length, chunk, n);
    if length > 0 {
      CeilDiv(offset % chunk + length, chunk, |segs|);
    }
  }

  /** The split is exact address translation: in order, gap-free, inside chunks,
      at the right address, and on existing minions when the range is in the drive. */
  lemma SplitIsExact(offset: nat, length: nat, chunk: nat, n: nat)
    requires chunk > 0 && n > 0
    ensures Tiles(Segments(offset, length, chunk, n), length)
    ensures forall s | s in Segments(offset, length, chunk, n) :: Translates(s, offset, chunk, n)
    ensures offset + length <= n * chunk ==>
      forall s | s in Segments(offset, length, chunk, n) :: s.primary < n && s.backup < n
  {
    SegmentsTile(offset, length, chunk, n);
    var segs := Segments(offset, length, chunk, n);
    forall s | s in segs
      ensures Translates(s, offset, chunk, n)
      ensures offset + length <= n * chunk ==> s.primary < n && s.backup < n
    {
      var i :| 0 <= i < |segs| && segs[i] == s;
      SegmentTranslates(offset, length, chunk, n, i);
    }
  }

  predicate Holds(s: Segment, k: nat)
  {
    s.bufferOffset <= k < s.bufferOffset + s.length
  }

  /** The segment that holds byte `k` of the buffer. */
  function SegmentOf(offset: nat, chunk: nat, k: nat): (i: nat)
    requires chunk > 0
  {
    DivMonotone(offset, offset + k, chunk);
    (offset + k) / chunk - offset / chunk
  }

  lemma SegmentOfExists(offset: nat, length: nat, chunk: nat, k: nat)
    requires chunk > 0 && k < length
    ensures SegmentOf(offset, chunk, k) < Count(offset, length, chunk)
  {
    var i, c := SegmentOf(offset, chunk, k), Count(offset, length, chunk);
    CeilDiv(offset % chunk + length, chunk, c);
    DivMod(offset, chunk);
    DivMod(offset + k, chunk);
    Distribute(offset / chunk, i, chunk);
    if c <= i {
      MultipleOrder(c, i, chunk);
    }
  }

  lemma HoldsExactly(offset: nat, length: nat, chunk: nat, n: nat, i: nat, k: nat)
    requires chunk > 0 && n > 0 && k < length && i < Count(offset, length, chunk)
    ensures Holds(SegmentAt(offset, length, chunk, n, i), k) <==> i == SegmentOf(offset, chunk, k)
    ensures Holds(SegmentAt(offset, length, chunk, n, i), k) ==>
      (offset + k) % chunk == LocalStart(offset, chunk, i) + (k - BufferStart(offset, chunk, i))
  {
    var s := SegmentAt(offset, length, chunk, n, i);
    SegmentAddress(offset, chunk, i);
    PieceBounds(offset, length, chunk, i);
    if Holds(s, k) {
      DivModUnique(offset + k, chunk, offset / chunk + i, s.localOffset + (k - s.bufferOffset));
    } else if i == SegmentOf(offset, chunk, k) {
      DivMod(offset, chunk);
      DivMod(offset + k, chunk);
      Distribute(offset / chunk, i, chunk);
      Distribute(i, 1, chunk);
    }
  }

  /** Byte `k` lies in exactly one segment, and that segment sends it to local
      address `(offset + k) % chunk` of minion `(offset + k) / chunk`. */
  lemma ByteInOneSegment(offset: nat, length: nat, chunk: nat, n: nat, k: nat)
    requires chunk > 0 && n > 0 && k < length
    ensures var segs := Segments(offset, length, chunk, n); var i := SegmentOf(offset, chunk, k);
      && i < |segs|
      && Holds(segs[i], k)
      && segs[i].primary == (offset + k) / chunk
      && segs[i].localOffset + (k - segs[i].bufferOffset) == (offset + k) % chunk
    ensures var segs := Segments(offset, length, chunk, n);
      forall j | 0 <= j < |segs| && Holds(segs[j], k) :: j == SegmentOf(offset, chunk, k)
  {
    SegmentOfExists(offset, length, chunk, k);
    HoldsExactly(offset, length, chunk, n, SegmentOf(offset, chunk, k), k);
    var segs := Segments(offset, length, chunk, n);
    forall j | 0 <= j < |segs| && Holds(segs[j], k)
      ensures j == SegmentOf(offset, chunk, k)
    {
      HoldsExactly(offset, length, chunk, n, j, k);
    }
  }

  // ----- Which minions a request uses -------------------------------------------

  /** No minion serves two (segment, role) pairs of the request. */
  ghost predicate DistinctMinions(segs: seq<Segment>)
  {
    && (forall i, j | 0 <= i < j < |segs| :: segs[i].primary != segs[j].primary)
    && (forall i, j | 0 <= i < j < |segs| :: segs[i].backup != segs[j].backup)
    && (forall i, j | 0 <= i < |segs| && 0 <= j < |segs| :: segs[i].primary != segs[j].backup)
  }

  lemma NextMinion(p: nat, n: nat)
    requires p < n
    ensures BackupIndex(p, n) == if p + 1 == n then 0 else p + 1
  {
    DivModUnique(p + 1, n, if p + 1 == n then 1 else 0, if p + 1 == n then 0 else p + 1);
  }

  /** For two or more minions, the minions a request uses are pairwise distinct
      exactly when the request has at most one segment. */
  lemma DistinctMinionsIffOneSegment(offset: nat, length: nat, chunk: nat, n: nat)
    requires chunk > 0 && n >= 2 && offset + length <= n * chunk
    ensures DistinctMinions(Segments(offset, length, chunk, n)) <==> Count(offset, length, chunk) <= 1
  {
    var segs := Segments(offset, length, chunk, n);
    if |segs| == 1 {
      SegmentTranslates(offset, length, chunk, n, 0);
      NextMinion(segs[0].primary, n);
    } else if |segs| >= 2 {
      SegmentTranslates(offset, length, chunk, n, 0);
      SegmentTranslates(offset, length, chunk, n, 1);
      NextMinion(segs[0].primary, n);
      assert segs[0].backup == segs[1].primary;
    }
  }

  // ----- The loop of the source ---------------------------------------------------

  /** A piece ends at the end of the request or of the chunk, whichever is first. */
  lemma PieceLength(offset: nat, length: nat, chunk: nat, i: nat)
    requires chunk > 0 && i < Count(offset, length, chunk)
    ensures var remaining := length - BufferStart(offset, chunk, i);
      var space := chunk - LocalStart(offset, chunk, i);
      BufferEnd(offset, length, chunk, i) - BufferStart(offset, chunk, i)
      == if remaining < space then remaining else space
    ensures i + 1 < Count(offset, length, chunk) <==> BufferEnd(offset, length, chunk, i) < length
  {
    PieceBounds(offset, length, chunk, i);
    if i + 1 < Count(offset, length, chunk) {
      PieceBounds(offset, length, chunk, i + 1);
    }
  }

  /** The loop builds exactly the closed form. */
  method Split(offset: nat, length: nat, chunk: nat, n: nat) returns (segments: seq<Segment>)
    requires chunk > 0 && n > 0
    ensures segments == Segments(offset, length, chunk, n)
    ensures Tiles(segments, length) && forall s | s in segments :: Translates(s, offset, chunk, n)
  {
    segments := [];
    var remaining, currentOffset, bufferOffset := length, offset, 0;
    ghost var all := Segments(offset, length, chunk, n);
    SplitIsExact(offset, length, chunk, n);
    while remaining > 0
      invariant bufferOffset + remaining == length && currentOffset == offset + bufferOffset
      invariant |segments| <= |all| && segments == all[..|segments|]
      invariant remaining > 0 <==> |segments| < |all|
      invariant remaining > 0 ==> bufferOffset == BufferStart(offset, chunk, |segments|)
    {
      var primaryIndex := PrimaryIndex(currentOffset, chunk);
      var localOffset := currentOffset % chunk;
      var spaceInChunk := chunk - localOffset;
      var segLen := if remaining < spaceInChunk then remaining else spaceInChunk;
      SegmentAddress(offset, chunk, |segments|);
      PieceLength(offset, length, chunk, |segments|);
      segments := segments +
        [Segment(localOffset, segLen, bufferOffset, primaryIndex, BackupIndex(primaryIndex, n))];
      currentOffset := currentOffset + segLen;
      bufferOffset := bufferOffset + segLen;
      remaining := remaining - segLen;
    }
  }
}
