/** Minion files as the result of the writes applied to them, in order. */
module LocalWrites {
  import opened Types

  /** `data` stored at local offset `at` of a minion's file. */
  datatype LocalWrite = LocalWrite(minion: nat, at: nat, data: seq<Byte>)

  predicate Hits(w: LocalWrite, m: nat, l: nat)
  {
    w.minion == m && w.at <= l < w.at + |w.data|
  }

  function ByteAt(w: LocalWrite, l: nat): Byte
    requires w.at <= l < w.at + |w.data|
  {
    w.data[l - w.at]
  }

  /** `n` files of `chunk` bytes. */
  ghost predicate Files(stores: seq<seq<Byte>>, n: nat, chunk: nat)
  {
    |stores| == n && forall m | 0 <= m < n :: |stores[m]| == chunk
  }

  ghost predicate InFiles(w: LocalWrite, n: nat, chunk: nat)
  {
    w.minion < n && w.at + |w.data| <= chunk
  }

  function Put(stores: seq<seq<Byte>>, w: LocalWrite): (r: seq<seq<Byte>>)
    ensures |r| == |stores|
  {
    if w.minion < |stores| && w.at + |w.data| <= |stores[w.minion]| then
      stores[w.minion := Overlay(stores[w.minion], w.at, w.data)]
    else stores
  }

  /** The files after the writes, the last one applied last. */
  function Replay(stores: seq<seq<Byte>>, ws: seq<LocalWrite>): (r: seq<seq<Byte>>)
    ensures |r| == |stores|
  {
    if ws == [] then stores else Put(Replay(stores, ws[..|ws| - 1]), ws[|ws| - 1])
  }

  lemma {:induction false} ReplayFiles(stores: seq<seq<Byte>>, ws: seq<LocalWrite>, n: nat, chunk: nat)
    requires Files(stores, n, chunk)
    ensures Files(Replay(stores, ws), n, chunk)
  {
    if ws != [] {
      ReplayFiles(stores, ws[..|ws| - 1], n, chunk);
    }
  }

  /** A cell holds the byte of the last write that hits it. */
  lemma {:induction false} CellIsLastHit(stores: seq<seq<Byte>>, ws: seq<LocalWrite>, n: nat, chunk: nat,
                                         m: nat, l: nat, e: nat)
    requires Files(stores, n, chunk) && m < n && l < chunk
    requires forall w | w in ws :: InFiles(w, n, chunk)
    requires e < |ws| && Hits(ws[e], m, l) && forall f | e < f < |ws| :: !Hits(ws[f], m, l)
    ensures |Replay(stores, ws)[m]| == chunk
    ensures Replay(stores, ws)[m][l] == ByteAt(ws[e], l)
  {
    var init := ws[..|ws| - 1];
    ReplayFiles(stores, ws, n, chunk);
    ReplayFiles(stores, init, n, chunk);
    assert ws[|ws| - 1] in ws;
    if e < |ws| - 1 {
      CellIsLastHit(stores, init, n, chunk, m, l, e);
    }
  }

  /** A cell that no write hits stays as it was. */
  lemma {:induction false} CellUntouched(stores: seq<seq<Byte>>, ws: seq<LocalWrite>, n: nat, chunk: nat,
                                         m: nat, l: nat)
    requires Files(stores, n, chunk) && m < n && l < chunk
    requires forall w | w in ws :: InFiles(w, n, chunk) && !Hits(w, m, l)
    ensures |Replay(stores, ws)[m]| == chunk
    ensures Replay(stores, ws)[m][l] == stores[m][l]
  {
    ReplayFiles(stores, ws, n, chunk);
    if ws != [] {
      var init := ws[..|ws| - 1];
      ReplayFiles(stores, init, n, chunk);
      assert ws[|ws| - 1] in ws;
      CellUntouched(stores, init, n, chunk, m, l);
    }
  }

  /** Any two writes that hit the same cell store the same byte there. */
  ghost predicate Agree(ws: seq<LocalWrite>)
  {
    forall v, w, m, l | v in ws && w in ws && Hits(v, m, l) && Hits(w, m, l) :: ByteAt(v, l) == ByteAt(w, l)
  }

  /** The index of the last write that hits a cell, or none. */
  lemma {:induction false} FindLastHit(ws: seq<LocalWrite>, m: nat, l: nat) returns (e: Option<nat>)
    ensures e.Some? ==> e.value < |ws| && Hits(ws[e.value], m, l)
    ensures e.Some? ==> forall f | e.value < f < |ws| :: !Hits(ws[f], m, l)
    ensures e.None? ==> forall w | w in ws :: !Hits(w, m, l)
  {
    if ws == [] {
      e := None;
    } else if Hits(ws[|ws| - 1], m, l) {
      e := Some(|ws| - 1);
    } else {
      e := FindLastHit(ws[..|ws| - 1], m, l);
    }
  }

  /** Writes that agree can be applied in any order. */
  lemma AgreeingWritesCommute(stores: seq<seq<Byte>>, ws: seq<LocalWrite>, ws': seq<LocalWrite>, n: nat, chunk: nat)
    requires Files(stores, n, chunk) && Agree(ws) && multiset(ws) == multiset(ws')
    requires forall w | w in ws :: InFiles(w, n, chunk)
    ensures Replay(stores, ws) == Replay(stores, ws')
  {
    forall w
      ensures w in ws <==> w in ws'
    {
      assert w in multiset(ws) <==> w in multiset(ws');
    }
    ReplayFiles(stores, ws, n, chunk);
    ReplayFiles(stores, ws', n, chunk);
    forall m, l | 0 <= m < n && 0 <= l < chunk
      ensures Replay(stores, ws)[m][l] == Replay(stores, ws')[m][l]
    {
      SameCell(stores, ws, ws', n, chunk, m, l);
    }
    forall m | 0 <= m < n
      ensures Replay(stores, ws)[m] == Replay(stores, ws')[m]
    {
    }
  }

  lemma SameCell(stores: seq<seq<Byte>>, ws: seq<LocalWrite>, ws': seq<LocalWrite>, n: nat, chunk: nat,
                 m: nat, l: nat)
    requires Files(stores, n, chunk) && m < n && l < chunk && Agree(ws)
    requires forall w | w in ws :: InFiles(w, n, chunk)
    requires forall w :: w in ws <==> w in ws'
    ensures |Replay(stores, ws)[m]| == chunk && |Replay(stores, ws')[m]| == chunk
    ensures Replay(stores, ws)[m][l] == Replay(stores, ws')[m][l]
  {
    var e := FindLastHit(ws, m, l);
    var f := FindLastHit(ws', m, l);
    if e.Some? && f.Some? {
      assert ws[e.value] in ws && ws'[f.value] in ws';
      CellIsLastHit(stores, ws, n, chunk, m, l, e.value);
      CellIsLastHit(stores, ws', n, chunk, m, l, f.value);
    } else {
      CellUntouched(stores, ws, n, chunk, m, l);
      CellUntouched(stores, ws', n, chunk, m, l);
    }
  }

  // ----- Minions are independent ---------------------------------------------------------------

  /** The writes of one minion, in order. */
  function WritesFor(ws: seq<LocalWrite>, m: nat): seq<LocalWrite>
  {
    if ws == [] then []
    else WritesFor(ws[..|ws| - 1], m) + if ws[|ws| - 1].minion == m then [ws[|ws| - 1]] else []
  }

  /** A write changes its own minion's file alone, and by that file alone. */
  lemma PutIsLocal(a: seq<seq<Byte>>, b: seq<seq<Byte>>, w: LocalWrite, m: nat)
    requires m < |a| == |b| && a[m] == b[m]
    ensures Put(a, w)[m] == if w.minion == m then Put(b, w)[m] else b[m]
  {
  }

  lemma ReplaySnoc(stores: seq<seq<Byte>>, ws: seq<LocalWrite>, w: LocalWrite)
    ensures Replay(stores, ws + [w]) == Put(Replay(stores, ws), w)
  {
    assert (ws + [w])[..|ws|] == ws;
  }

  lemma {:induction false} FileIsOwnReplay(stores: seq<seq<Byte>>, ws: seq<LocalWrite>, m: nat)
    requires m < |stores|
    ensures Replay(stores, ws)[m] == Replay(stores, WritesFor(ws, m))[m]
  {
    if ws != [] {
      var init, last := ws[..|ws| - 1], ws[|ws| - 1];
      FileIsOwnReplay(stores, init, m);
      PutIsLocal(Replay(stores, init), Replay(stores, WritesFor(init, m)), last, m);
      ReplaySnoc(stores, WritesFor(init, m), last);
      assert last.minion != m ==> WritesFor(ws, m) == WritesFor(init, m);
    }
  }

  /** Only the order in which each minion applies its own writes matters. */
  lemma OwnOrderDecides(stores: seq<seq<Byte>>, ws: seq<LocalWrite>, ws': seq<LocalWrite>)
    requires forall m: nat :: WritesFor(ws, m) == WritesFor(ws', m)
    ensures Replay(stores, ws) == Replay(stores, ws')
  {
    forall m: nat | m < |stores|
      ensures Replay(stores, ws)[m] == Replay(stores, ws')[m]
    {
      FileIsOwnReplay(stores, ws, m);
      FileIsOwnReplay(stores, ws', m);
      assert WritesFor(ws, m) == WritesFor(ws', m);
    }
  }
}
