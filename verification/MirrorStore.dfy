/** What the minion files hold after writes inside one chunk, run one at a time: every
    cell is shared by two logical addresses, and when that still looks like a plain disk. */
module MirrorStore {
  import opened Types
  import opened Arithmetic
  import opened StripeSplitter
  import opened LocalWrites
  import opened WideRequests

  datatype DiskWrite = DiskWrite(offset: nat, data: seq<Byte>)

  predicate InOneChunk(w: DiskWrite, chunk: nat, n: nat)
    requires chunk > 0
  {
    |w.data| > 0 && w.offset % chunk + |w.data| <= chunk && w.offset / chunk < n
  }

  predicate AllInOneChunk(ws: seq<DiskWrite>, chunk: nat, n: nat)
    requires chunk > 0
  {
    forall i | 0 <= i < |ws| :: InOneChunk(ws[i], chunk, n)
  }

  predicate Covers(w: DiskWrite, a: nat)
  {
    w.offset <= a < w.offset + |w.data|
  }

  /** The latest byte written to address `a` or `b`; zero if there is none. */
  function Latest(ws: seq<DiskWrite>, a: nat, b: nat): Byte
  {
    if ws == [] then 0
    else
      var w := ws[|ws| - 1];
      if Covers(w, a) then w.data[a - w.offset]
      else if Covers(w, b) then w.data[b - w.offset]
      else Latest(ws[..|ws| - 1], a, b)
  }

  function PrimaryWrite(w: DiskWrite, chunk: nat): LocalWrite
    requires chunk > 0
  {
    LocalWrite(w.offset / chunk, w.offset % chunk, w.data)
  }

  function BackupWrite(w: DiskWrite, chunk: nat, n: nat): LocalWrite
    requires chunk > 0 && n > 0
  {
    LocalWrite(BackupIndex(w.offset / chunk, n), w.offset % chunk, w.data)
  }

  /** These two are all the local writes of a request inside one chunk. */
  lemma OneChunkWrites(w: DiskWrite, chunk: nat, n: nat)
    requires chunk > 0 && n > 0 && InOneChunk(w, chunk, n)
    ensures RequestWrites(w.offset, w.data, chunk, n) == [PrimaryWrite(w, chunk), BackupWrite(w, chunk, n)]
  {
    var x := w.offset % chunk + |w.data|;
    DivModUnique(x + chunk - 1, chunk, 1, x - 1);
    assert Count(w.offset, |w.data|, chunk) == 1;
    assert WriteAt(w.offset, w.data, chunk, n, 0) == PrimaryWrite(w, chunk);
    assert WriteAt(w.offset, w.data, chunk, n, 1) == BackupWrite(w, chunk, n);
  }

  /** The minions applied the requests one at a time, each request once on both of its
      minions, in either order. */
  ghost predicate Serial(ws: seq<DiskWrite>, served: seq<LocalWrite>, chunk: nat, n: nat)
    requires chunk > 0 && n > 0
  {
    if ws == [] then served == []
    else
      var p, b := PrimaryWrite(ws[|ws| - 1], chunk), BackupWrite(ws[|ws| - 1], chunk, n);
      && |served| >= 2
      && (served[|served| - 2..] == [p, b] || served[|served| - 2..] == [b, p])
      && Serial(ws[..|ws| - 1], served[..|served| - 2], chunk, n)
  }

  function EmptyFiles(chunk: nat, n: nat): (r: seq<seq<Byte>>)
    ensures |r| == n && forall m | 0 <= m < n :: |r[m]| == chunk && r[m] == Zeros(chunk)
  {
    seq(n, _ => Zeros(chunk))
  }

  function PreviousMinion(m: nat, n: nat): nat
    requires n > 0
  {
    (m + n - 1) % n
  }

  lemma PreviousThenNext(m: nat, q: nat, n: nat)
    requires m < n && q < n
    ensures PreviousMinion(m, n) < n
    ensures BackupIndex(q, n) == m <==> q == PreviousMinion(m, n)
  {
    NextMinion(q, n);
    DivModUnique(m + n - 1, n, if m == 0 then 0 else 1, if m == 0 then n - 1 else m - 1);
  }

  // ----- The cell of an address -------------------------------------------------------------------

  /** A write inside one chunk covers an address exactly when it is in the same chunk and
      covers its local offset. */
  lemma CoversLocally(w: DiskWrite, chunk: nat, n: nat, a: nat)
    requires chunk > 0 && InOneChunk(w, chunk, n)
    ensures var r := w.offset % chunk;
      && (Covers(w, a) <==> w.offset / chunk == a / chunk && r <= a % chunk < r + |w.data|)
      && (Covers(w, a) ==> a - w.offset == a % chunk - r)
  {
    DivMod(w.offset, chunk);
    DivMod(a, chunk);
    if Covers(w, a) {
      DivModUnique(a, chunk, w.offset / chunk, w.offset % chunk + (a - w.offset));
    }
  }

  /** `a` is the address of cell `l` of minion `m` as primary, `b` as backup. */
  ghost predicate Aliases(m: nat, l: nat, a: nat, b: nat, chunk: nat, n: nat)
    requires chunk > 0 && n > 0
  {
    m < n && l < chunk && a / chunk == m && a % chunk == l && b / chunk == PreviousMinion(m, n) && b % chunk == l
  }

  /** Seen from one minion: the write hits the cell exactly when it covers address `a`. */
  lemma MirrorToCell(w: DiskWrite, chunk: nat, n: nat, mirror: LocalWrite, m: nat, l: nat, a: nat)
    requires chunk > 0 && InOneChunk(w, chunk, n) && a % chunk == l
    requires mirror.at == w.offset % chunk && mirror.data == w.data
    requires mirror.minion == m <==> w.offset / chunk == a / chunk
    ensures Hits(mirror, m, l) <==> Covers(w, a)
    ensures Covers(w, a) ==> ByteAt(mirror, l) == w.data[a - w.offset]
    ensures Covers(w, a) ==> a - w.offset == l - w.offset % chunk
  {
    CoversLocally(w, chunk, n, a);
  }

  /** One write changes a cell exactly when it covers one of the cell's two addresses. */
  lemma WriteToCell(w: DiskWrite, chunk: nat, n: nat, m: nat, l: nat, a: nat, b: nat)
    requires chunk > 0 && n > 0 && InOneChunk(w, chunk, n) && Aliases(m, l, a, b, chunk, n)
    ensures Hits(PrimaryWrite(w, chunk), m, l) <==> Covers(w, a)
    ensures Hits(BackupWrite(w, chunk, n), m, l) <==> Covers(w, b)
    ensures Covers(w, a) ==> ByteAt(PrimaryWrite(w, chunk), l) == w.data[a - w.offset]
    ensures Covers(w, b) ==> ByteAt(BackupWrite(w, chunk, n), l) == w.data[b - w.offset]
    ensures Covers(w, a) && Covers(w, b) ==> w.data[a - w.offset] == w.data[b - w.offset]
    ensures InFiles(PrimaryWrite(w, chunk), n, chunk) && InFiles(BackupWrite(w, chunk, n), n, chunk)
  {
    PreviousThenNext(m, w.offset / chunk, n);
    NextMinion(w.offset / chunk, n);
    MirrorToCell(w, chunk, n, PrimaryWrite(w, chunk), m, l, a);
    MirrorToCell(w, chunk, n, BackupWrite(w, chunk, n), m, l, b);
  }

  lemma PutCell(stores: seq<seq<Byte>>, w: LocalWrite, n: nat, chunk: nat, m: nat, l: nat, v: Byte)
    requires Files(stores, n, chunk) && InFiles(w, n, chunk) && Cell(stores, m, l, v)
    ensures Files(Put(stores, w), n, chunk)
    ensures Cell(Put(stores, w), m, l, if Hits(w, m, l) then ByteAt(w, l) else v)
  {
  }

  lemma ReplayTwo(stores: seq<seq<Byte>>, served: seq<LocalWrite>)
    requires |served| >= 2
    ensures Replay(stores, served)
      == Put(Put(Replay(stores, served[..|served| - 2]), served[|served| - 2]), served[|served| - 1])
  {
    var init := served[..|served| - 1];
    assert init[..|init| - 1] == served[..|served| - 2];
  }

  /** Byte `l` of minion `m` is the latest byte written to either of its two logical
      addresses, and zero if neither was written. */
  lemma {:induction false} SerialStoresLatest(ws: seq<DiskWrite>, served: seq<LocalWrite>, chunk: nat, n: nat,
                                              m: nat, l: nat, a: nat, b: nat)
    requires chunk > 0 && n > 0 && AllInOneChunk(ws, chunk, n) && Serial(ws, served, chunk, n)
    requires Aliases(m, l, a, b, chunk, n)
    ensures Files(Replay(EmptyFiles(chunk, n), served), n, chunk)
    ensures Cell(Replay(EmptyFiles(chunk, n), served), m, l, Latest(ws, a, b))
  {
    if ws != [] {
      var w, before := ws[|ws| - 1], served[..|served| - 2];
      SerialStoresLatest(ws[..|ws| - 1], before, chunk, n, m, l, a, b);
      WriteToCell(w, chunk, n, m, l, a, b);
      ReplayTwo(EmptyFiles(chunk, n), served);
      var x, y := served[|served| - 2], served[|served| - 1];
      assert served[|served| - 2..] == [x, y];
      PutBoth(Replay(EmptyFiles(chunk, n), before), x, y, n, chunk, m, l, Latest(ws[..|ws| - 1], a, b));
    }
  }

  lemma PutBoth(stores: seq<seq<Byte>>, x: LocalWrite, y: LocalWrite, n: nat, chunk: nat, m: nat, l: nat, v: Byte)
    requires Files(stores, n, chunk) && InFiles(x, n, chunk) && InFiles(y, n, chunk) && Cell(stores, m, l, v)
    ensures Files(Put(Put(stores, x), y), n, chunk)
    ensures Cell(Put(Put(stores, x), y), m, l,
                 if Hits(y, m, l) then ByteAt(y, l) else if Hits(x, m, l) then ByteAt(x, l) else v)
  {
    PutCell(stores, x, n, chunk, m, l, v);
    PutCell(Put(stores, x), y, n, chunk, m, l, if Hits(x, m, l) then ByteAt(x, l) else v);
  }

  // ----- When the mirrors look like one plain disk ----------------------------------------------------

  /** A plain disk of `size` bytes after the same writes. */
  function Disk(ws: seq<DiskWrite>, size: nat): (r: seq<Byte>)
    ensures |r| == size
  {
    if ws == [] then Zeros(size)
    else
      var w, before := ws[|ws| - 1], Disk(ws[..|ws| - 1], size);
      if w.offset + |w.data| <= size then Overlay(before, w.offset, w.data) else before
  }

  lemma {:induction false} DiskIsLatest(ws: seq<DiskWrite>, size: nat, a: nat)
    requires a < size && forall i | 0 <= i < |ws| :: ws[i].offset + |ws[i].data| <= size
    ensures Disk(ws, size)[a] == Latest(ws, a, a)
  {
    if ws != [] {
      DiskIsLatest(ws[..|ws| - 1], size, a);
    }
  }

  /** An address nobody wrote does not matter. */
  lemma {:induction false} LatestIgnores(ws: seq<DiskWrite>, a: nat, b: nat)
    requires forall i | 0 <= i < |ws| :: !Covers(ws[i], b)
    ensures Latest(ws, a, b) == Latest(ws, a, a) && Latest(ws, b, a) == Latest(ws, a, a)
  {
    if ws != [] {
      LatestIgnores(ws[..|ws| - 1], a, b);
    }
  }

  function ChunkOf(w: DiskWrite, chunk: nat): nat
    requires chunk > 0
  {
    w.offset / chunk
  }

  /** No two chunks that were written follow each other round the drive. */
  ghost predicate NoNeighbours(ws: seq<DiskWrite>, chunk: nat, n: nat)
    requires chunk > 0 && n > 0
  {
    forall i, j | 0 <= i < |ws| && 0 <= j < |ws| :: ChunkOf(ws[i], chunk) != BackupIndex(ChunkOf(ws[j], chunk), n)
  }

  ghost predicate ChunkWritten(ws: seq<DiskWrite>, p: nat, chunk: nat)
    requires chunk > 0
  {
    exists i :: 0 <= i < |ws| && ChunkOf(ws[i], chunk) == p
  }

  lemma OtherChunk(w: DiskWrite, chunk: nat, n: nat, b: nat)
    requires chunk > 0 && InOneChunk(w, chunk, n) && ChunkOf(w, chunk) != b / chunk
    ensures !Covers(w, b)
  {
    CoversLocally(w, chunk, n, b);
  }

  lemma NeighbourUntouched(ws: seq<DiskWrite>, chunk: nat, n: nat, p: nat, b: nat, q: nat)
    requires chunk > 0 && n > 0 && AllInOneChunk(ws, chunk, n) && NoNeighbours(ws, chunk, n)
    requires ChunkWritten(ws, p, chunk) && q == b / chunk && (BackupIndex(p, n) == q || BackupIndex(q, n) == p)
    ensures forall i | 0 <= i < |ws| :: !Covers(ws[i], b)
  {
    var j :| 0 <= j < |ws| && ChunkOf(ws[j], chunk) == p;
    forall i | 0 <= i < |ws|
      ensures ChunkOf(ws[i], chunk) != q
    {
      assert ChunkOf(ws[i], chunk) != BackupIndex(ChunkOf(ws[j], chunk), n);
      assert ChunkOf(ws[j], chunk) != BackupIndex(ChunkOf(ws[i], chunk), n);
    }
    forall i | 0 <= i < |ws|
      ensures !Covers(ws[i], b)
    {
      OtherChunk(ws[i], chunk, n, b);
    }
  }

  lemma WritesFitDisk(ws: seq<DiskWrite>, chunk: nat, n: nat)
    requires chunk > 0 && AllInOneChunk(ws, chunk, n)
    ensures forall i | 0 <= i < |ws| :: ws[i].offset + |ws[i].data| <= n * chunk
  {
    forall i | 0 <= i < |ws|
      ensures ws[i].offset + |ws[i].data| <= n * chunk
    {
      DivMod(ws[i].offset, chunk);
      MultipleStep(ws[i].offset / chunk, n, chunk);
    }
  }

  lemma AddressIn(q: nat, l: nat, chunk: nat) returns (a: nat)
    requires l < chunk
    ensures a / chunk == q && a % chunk == l
  {
    ProductNonNegative(q, chunk);
    a := q * chunk + l;
    DivModUnique(a, chunk, q, l);
  }

  lemma BothMirrorsDisk(ws: seq<DiskWrite>, served: seq<LocalWrite>, chunk: nat, n: nat, size: nat, a: nat)
    requires chunk > 0 && n >= 2 && AllInOneChunk(ws, chunk, n) && Serial(ws, served, chunk, n)
    requires NoNeighbours(ws, chunk, n) && ChunkWritten(ws, a / chunk, chunk)
    requires a < size && a / chunk < n && forall i | 0 <= i < |ws| :: ws[i].offset + |ws[i].data| <= size
    ensures ByteReadsBack(Replay(EmptyFiles(chunk, n), served), a, Disk(ws, size)[a], chunk, n, Primary)
    ensures ByteReadsBack(Replay(EmptyFiles(chunk, n), served), a, Disk(ws, size)[a], chunk, n, Backup)
  {
    DiskIsLatest(ws, size, a);
    BothMirrorsLatest(ws, served, chunk, n, a, a / chunk, a % chunk);
  }

  /** If no two written chunks are neighbours, reading any byte of a written chunk through
      either mirror gives what a plain disk would. */
  lemma NonAdjacentIsDisk(ws: seq<DiskWrite>, served: seq<LocalWrite>, chunk: nat, n: nat, size: nat, a: nat)
    requires chunk > 0 && n >= 2 && AllInOneChunk(ws, chunk, n) && Serial(ws, served, chunk, n)
    requires NoNeighbours(ws, chunk, n) && ChunkWritten(ws, a / chunk, chunk)
    requires a < size && size == n * chunk
    ensures ByteReadsBack(Replay(EmptyFiles(chunk, n), served), a, Disk(ws, size)[a], chunk, n, Primary)
    ensures ByteReadsBack(Replay(EmptyFiles(chunk, n), served), a, Disk(ws, size)[a], chunk, n, Backup)
  {
    QuotientBelow(a, chunk, n);
    WritesFitDisk(ws, chunk, n);
    BothMirrorsDisk(ws, served, chunk, n, size, a);
  }

  lemma BothMirrorsLatest(ws: seq<DiskWrite>, served: seq<LocalWrite>, chunk: nat, n: nat, a: nat, p: nat, l: nat)
    requires chunk > 0 && n >= 2 && AllInOneChunk(ws, chunk, n) && Serial(ws, served, chunk, n)
    requires NoNeighbours(ws, chunk, n) && ChunkWritten(ws, p, chunk)
    requires p == a / chunk && l == a % chunk && p < n && l < chunk
    ensures Cell(Replay(EmptyFiles(chunk, n), served), p, l, Latest(ws, a, a))
    ensures Cell(Replay(EmptyFiles(chunk, n), served), BackupIndex(p, n), l, Latest(ws, a, a))
  {
    NextMinion(p, n);
    PreviousThenNext(p, PreviousMinion(p, n), n);
    PreviousThenNext(BackupIndex(p, n), p, n);
    var b := AddressIn(PreviousMinion(p, n), l, chunk);
    var d := AddressIn(BackupIndex(p, n), l, chunk);
    SerialStoresLatest(ws, served, chunk, n, p, l, a, b);
    SerialStoresLatest(ws, served, chunk, n, BackupIndex(p, n), l, d, a);
    NeighbourUntouched(ws, chunk, n, p, b, PreviousMinion(p, n));
    NeighbourUntouched(ws, chunk, n, p, d, BackupIndex(p, n));
    LatestIgnores(ws, a, b);
    LatestIgnores(ws, a, d);
  }

  // ----- Exactly when a cell still holds what a plain disk would -----------------------------------------

  /** The same requests with other bytes. */
  ghost predicate SameExtents(ws: seq<DiskWrite>, vs: seq<DiskWrite>)
  {
    |ws| == |vs| && forall i | 0 <= i < |ws| :: ws[i].offset == vs[i].offset && |ws[i].data| == |vs[i].data|
  }

  /** The last write to either address went to `b`. */
  predicate Shadowed(ws: seq<DiskWrite>, a: nat, b: nat)
  {
    && ws != []
    && var w := ws[|ws| - 1];
       !Covers(w, a) && (Covers(w, b) || Shadowed(ws[..|ws| - 1], a, b))
  }

  lemma {:induction false} UnshadowedIsDisk(ws: seq<DiskWrite>, vs: seq<DiskWrite>, a: nat, b: nat)
    requires SameExtents(ws, vs) && !Shadowed(ws, a, b)
    ensures Latest(vs, a, b) == Latest(vs, a, a)
  {
    if ws != [] && !Covers(ws[|ws| - 1], a) {
      UnshadowedIsDisk(ws[..|ws| - 1], vs[..|vs| - 1], a, b);
    }
  }

  /** The writes with every byte 1 in those that cover `b`, and 0 in the others. */
  function Painted(ws: seq<DiskWrite>, b: nat): seq<DiskWrite>
  {
    seq(|ws|, i requires 0 <= i < |ws| =>
      DiskWrite(ws[i].offset, seq(|ws[i].data|, _ => if Covers(ws[i], b) then 1 else 0)))
  }

  lemma PaintedInit(ws: seq<DiskWrite>, b: nat)
    requires ws != []
    ensures Painted(ws, b)[..|ws| - 1] == Painted(ws[..|ws| - 1], b)
  {
  }

  lemma {:induction false} PaintedOwn(ws: seq<DiskWrite>, a: nat, b: nat)
    requires forall i | 0 <= i < |ws| :: !(Covers(ws[i], a) && Covers(ws[i], b))
    ensures Latest(Painted(ws, b), a, a) == 0
  {
    if ws != [] {
      PaintedOwn(ws[..|ws| - 1], a, b);
      PaintedInit(ws, b);
    }
  }

  lemma {:induction false} PaintedShadow(ws: seq<DiskWrite>, a: nat, b: nat)
    requires Shadowed(ws, a, b)
    ensures Latest(Painted(ws, b), a, b) == 1
  {
    PaintedInit(ws, b);
    if !Covers(ws[|ws| - 1], b) {
      PaintedShadow(ws[..|ws| - 1], a, b);
    }
  }

  /** The latest byte at either address is the latest at `a`, whatever was written, exactly
      if the last write to either went to `a` or there was none. */
  lemma LatestIsOwnExactly(ws: seq<DiskWrite>, a: nat, b: nat)
    requires forall i | 0 <= i < |ws| :: !(Covers(ws[i], a) && Covers(ws[i], b))
    ensures (forall vs | SameExtents(ws, vs) :: Latest(vs, a, b) == Latest(vs, a, a)) <==> !Shadowed(ws, a, b)
  {
    PaintedOwn(ws, a, b);
    if Shadowed(ws, a, b) {
      PaintedShadow(ws, a, b);
      assert SameExtents(ws, Painted(ws, b));
    } else {
      forall vs | SameExtents(ws, vs)
        ensures Latest(vs, a, b) == Latest(vs, a, a)
      {
        UnshadowedIsDisk(ws, vs, a, b);
      }
    }
  }

  /** Every request with its primary served before its backup. */
  function InOrder(ws: seq<DiskWrite>, chunk: nat, n: nat): seq<LocalWrite>
    requires chunk > 0 && n > 0
  {
    if ws == [] then []
    else InOrder(ws[..|ws| - 1], chunk, n)
         + [PrimaryWrite(ws[|ws| - 1], chunk), BackupWrite(ws[|ws| - 1], chunk, n)]
  }

  lemma {:induction false} InOrderIsSerial(ws: seq<DiskWrite>, chunk: nat, n: nat)
    requires chunk > 0 && n > 0
    ensures Serial(ws, InOrder(ws, chunk, n), chunk, n)
  {
    if ws != [] {
      InOrderIsSerial(ws[..|ws| - 1], chunk, n);
      var before := InOrder(ws[..|ws| - 1], chunk, n);
      assert InOrder(ws, chunk, n)[..|before|] == before;
    }
  }

  /** No write covers both addresses of a cell. */
  ghost predicate Apart(ws: seq<DiskWrite>, a: nat, b: nat)
  {
    forall i | 0 <= i < |ws| :: !(Covers(ws[i], a) && Covers(ws[i], b))
  }

  lemma DifferentChunksApart(ws: seq<DiskWrite>, chunk: nat, n: nat, a: nat, b: nat)
    requires chunk > 0 && AllInOneChunk(ws, chunk, n) && a / chunk != b / chunk
    ensures Apart(ws, a, b)
  {
    forall i | 0 <= i < |ws|
      ensures !(Covers(ws[i], a) && Covers(ws[i], b))
    {
      CoversLocally(ws[i], chunk, n, a);
      CoversLocally(ws[i], chunk, n, b);
    }
  }

  lemma AliasesDiffer(m: nat, l: nat, a: nat, b: nat, chunk: nat, n: nat)
    requires chunk > 0 && n >= 2 && Aliases(m, l, a, b, chunk, n)
    ensures a / chunk != b / chunk
  {
    PreviousThenNext(m, m, n);
    NextMinion(m, n);
  }

  lemma {:induction false} LatestSwaps(ws: seq<DiskWrite>, a: nat, b: nat)
    requires Apart(ws, a, b)
    ensures Latest(ws, a, b) == Latest(ws, b, a)
  {
    if ws != [] {
      LatestSwaps(ws[..|ws| - 1], a, b);
    }
  }

  /** Cell `l` of minion `m` is where the mirror of `role` keeps address `a`; it shares it
      with address `b`. */
  ghost predicate MirrorCell(m: nat, l: nat, a: nat, b: nat, chunk: nat, n: nat, role: Role)
    requires chunk > 0 && n > 0
  {
    if role == Primary then Aliases(m, l, a, b, chunk, n) else Aliases(m, l, b, a, chunk, n)
  }

  /** After any requests with these extents, run one at a time, the cell holds what a plain
      disk holds at `a`. */
  ghost predicate AlwaysDisk(ws: seq<DiskWrite>, chunk: nat, n: nat, size: nat, m: nat, l: nat, a: nat)
    requires chunk > 0 && n > 0 && a < size
  {
    forall vs, served | SameExtents(ws, vs) && Serial(vs, served, chunk, n) ::
      Cell(Replay(EmptyFiles(chunk, n), served), m, l, Disk(vs, size)[a])
  }

  lemma SameExtentsInOneChunk(ws: seq<DiskWrite>, vs: seq<DiskWrite>, chunk: nat, n: nat)
    requires chunk > 0 && AllInOneChunk(ws, chunk, n) && SameExtents(ws, vs)
    ensures AllInOneChunk(vs, chunk, n)
  {
    forall i | 0 <= i < |vs|
      ensures InOneChunk(vs[i], chunk, n)
    {
      assert InOneChunk(ws[i], chunk, n);
    }
  }

  /** What the cell and the plain disk hold, in terms of the writes. */
  lemma CellAndDisk(vs: seq<DiskWrite>, served: seq<LocalWrite>, a: nat, b: nat, chunk: nat, n: nat, size: nat,
                    m: nat, l: nat, role: Role, v: Byte)
    requires chunk > 0 && n >= 2 && AllInOneChunk(vs, chunk, n) && Serial(vs, served, chunk, n)
    requires size == n * chunk && a < size && MirrorCell(m, l, a, b, chunk, n, role)
    ensures Disk(vs, size)[a] == Latest(vs, a, a)
    ensures Cell(Replay(EmptyFiles(chunk, n), served), m, l, v) <==> v == Latest(vs, a, b)
  {
    WritesFitDisk(vs, chunk, n);
    DiskIsLatest(vs, size, a);
    if role == Primary {
      SerialStoresLatest(vs, served, chunk, n, m, l, a, b);
    } else {
      SerialStoresLatest(vs, served, chunk, n, m, l, b, a);
      AliasesDiffer(m, l, b, a, chunk, n);
      DifferentChunksApart(vs, chunk, n, a, b);
      LatestSwaps(vs, a, b);
    }
  }

  /** Either mirror of an address holds, whatever was written, what a plain disk holds
      there, exactly if the last write to either address of its cell went to this one, or
      there was none. */
  lemma CellIsDiskExactly(ws: seq<DiskWrite>, a: nat, b: nat, chunk: nat, n: nat, size: nat,
                          m: nat, l: nat, role: Role)
    requires chunk > 0 && n >= 2 && AllInOneChunk(ws, chunk, n)
    requires size == n * chunk && a < size && MirrorCell(m, l, a, b, chunk, n, role)
    ensures AlwaysDisk(ws, chunk, n, size, m, l, a) <==> !Shadowed(ws, a, b)
  {
    CellApart(ws, a, b, chunk, n, m, l, role);
    LatestIsOwnExactly(ws, a, b);
    if Shadowed(ws, a, b) {
      ShadowedDiffers(ws, a, b, chunk, n, size, m, l, role);
    } else {
      forall vs, served | SameExtents(ws, vs) && Serial(vs, served, chunk, n)
        ensures Cell(Replay(EmptyFiles(chunk, n), served), m, l, Disk(vs, size)[a])
      {
        SameExtentsInOneChunk(ws, vs, chunk, n);
        CellAndDisk(vs, served, a, b, chunk, n, size, m, l, role, Disk(vs, size)[a]);
      }
    }
  }

  lemma CellApart(ws: seq<DiskWrite>, a: nat, b: nat, chunk: nat, n: nat, m: nat, l: nat, role: Role)
    requires chunk > 0 && n >= 2 && AllInOneChunk(ws, chunk, n) && MirrorCell(m, l, a, b, chunk, n, role)
    ensures Apart(ws, a, b)
  {
    if role == Primary {
      AliasesDiffer(m, l, a, b, chunk, n);
    } else {
      AliasesDiffer(m, l, b, a, chunk, n);
    }
    DifferentChunksApart(ws, chunk, n, a, b);
  }

  lemma ShadowedDiffers(ws: seq<DiskWrite>, a: nat, b: nat, chunk: nat, n: nat, size: nat,
                        m: nat, l: nat, role: Role)
    requires chunk > 0 && n >= 2 && AllInOneChunk(ws, chunk, n) && Apart(ws, a, b) && Shadowed(ws, a, b)
    requires size == n * chunk && a < size && MirrorCell(m, l, a, b, chunk, n, role)
    ensures !AlwaysDisk(ws, chunk, n, size, m, l, a)
  {
    var vs := Painted(ws, b);
    var served := InOrder(vs, chunk, n);
    PaintedOwn(ws, a, b);
    PaintedShadow(ws, a, b);
    SameExtentsInOneChunk(ws, vs, chunk, n);
    InOrderIsSerial(vs, chunk, n);
    CellAndDisk(vs, served, a, b, chunk, n, size, m, l, role, Disk(vs, size)[a]);
    assert SameExtents(ws, vs) && Serial(vs, served, chunk, n);
  }

  /** Two writes that collide: with two minions of one byte each, the byte at address 1 goes
      over the backup of address 0, and a read that falls back to it returns the wrong one. */
  lemma NeighboursCollide()
    ensures var ws := [DiskWrite(0, [1]), DiskWrite(1, [2])];
      var files := Replay(EmptyFiles(1, 2), InOrder(ws, 1, 2));
      && AllInOneChunk(ws, 1, 2) && Serial(ws, InOrder(ws, 1, 2), 1, 2)
      && Disk(ws, 2)[0] == 1 && ByteReadsBack(files, 0, 2, 1, 2, Backup)
  {
    var ws := [DiskWrite(0, [1]), DiskWrite(1, [2])];
    InOrderIsSerial(ws, 1, 2);
    assert ws[..1] == [DiskWrite(0, [1])] && ws[..1][..0] == [];
    assert Aliases(1, 0, 1, 0, 1, 2);
    CellAndDisk(ws, InOrder(ws, 1, 2), 0, 1, 1, 2, 2, 1, 0, Backup, 2);
    assert Latest(ws, 0, 1) == 2;
    assert Latest(ws, 0, 0) == 1;
  }
}
