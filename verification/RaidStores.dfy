/** The minion files of every run are the replay of the writes served, and so of the
    requests when these are run one at a time. */
module RaidStores {
  import opened Types
  import opened Codec
  import opened Minion
  import opened RaidSystem
  import opened RaidInvariant
  import opened RaidOrigin
  import opened LocalWrites
  import opened WideRequests
  import opened MirrorStore

  /** What a step writes to a file: the slice of a write served well, anything in its
      range if it failed. */
  function EffectOf(s: System, l: Label): seq<LocalWrite>
  {
    if !l.Serve? || l.minion >= |s.stores| then [] else
    match Deliver(l.packet)
    case Some(WriteSend(_, offset, length, data)) =>
      if offset + length > |s.stores[l.minion]| then []
      else [LocalWrite(l.minion, offset,
                       if l.good && |data| >= length then data[..length] else Noise(l.noise, length))]
    case _ => []
  }

  /** All writes served up to state `t`, in order. */
  function ServedWrites(run: Run, t: nat): seq<LocalWrite>
    requires t <= |run.labels| && |run.states| == |run.labels| + 1
  {
    if t == 0 then [] else ServedWrites(run, t - 1) + EffectOf(run.states[t - 1], run.labels[t - 1])
  }

  lemma StepStores(c: Config, s: System, l: Label)
    requires ValidConfig(c) && Enabled(c, s, l)
    ensures Apply(c, s, l).stores == Replay(s.stores, EffectOf(s, l))
  {
    match l
    case NewRequest(r) =>
    case Announce(u) =>
    case OpenTicket(u) => OpenTicketStores(c, s, u);
    case Send(u, trailer) => SendStores(c, s, u, trailer);
    case Serve(m, packet, good, noise) => ServeEffect(s, l);
    case Wakeup(m, packet, noise) => WakeupStores(s, m, packet, noise);
  }

  lemma OpenTicketStores(c: Config, s: System, u: nat)
    requires ValidConfig(c) && u in s.tasks
    ensures AfterOpenTicket(c, s, u).stores == s.stores
  {
  }

  lemma SendStores(c: Config, s: System, u: nat, trailer: Byte)
    requires ValidConfig(c) && CanSend(c, s, u)
    ensures AfterSend(c, s, u, trailer).stores == s.stores
  {
  }

  lemma WakeupStores(s: System, m: nat, packet: seq<Byte>, noise: seq<Byte>)
    requires m < |s.pending|
    ensures AfterWakeup(s, m, packet, noise).stores == s.stores
  {
  }

  lemma ReplayOne(stores: seq<seq<Byte>>, w: LocalWrite)
    ensures Replay(stores, [w]) == Put(stores, w)
  {
    assert [w][..0] == [];
  }

  lemma ServeEffect(s: System, l: Label)
    requires l.Serve? && l.minion < |s.stores|
    ensures AfterServe(s, l.minion, l.packet, l.good, l.noise).stores == Replay(s.stores, EffectOf(s, l))
  {
    var effect := EffectOf(s, l);
    if effect != [] {
      ReplayOne(s.stores, effect[0]);
    }
    if Deliver(l.packet).Some? {
      assert s.stores[l.minion := s.stores[l.minion]] == s.stores;
    }
  }

  lemma {:induction false} ReplayConcat(stores: seq<seq<Byte>>, ws: seq<LocalWrite>, vs: seq<LocalWrite>)
    ensures Replay(stores, ws + vs) == Replay(Replay(stores, ws), vs)
  {
    if vs == [] {
      assert ws + vs == ws;
    } else {
      ReplayConcat(stores, ws, vs[..|vs| - 1]);
      assert (ws + vs)[..|ws + vs| - 1] == ws + vs[..|vs| - 1];
    }
  }

  /** In every state of every run the files are the replay of the writes served. */
  lemma {:induction false} StoresAreReplays(c: Config, run: Run, t: nat)
    requires ValidConfig(c) && IsRun(c, run) && t < |run.states|
    ensures run.states[t].stores == Replay(EmptyFiles(c.chunk, c.n), ServedWrites(run, t))
  {
    if t > 0 {
      StoresAreReplays(c, run, t - 1);
      StepOfRun(c, run, t - 1);
      StepStores(c, run.states[t - 1], run.labels[t - 1]);
      ReplayConcat(EmptyFiles(c.chunk, c.n), ServedWrites(run, t - 1),
                   EffectOf(run.states[t - 1], run.labels[t - 1]));
    } else {
      assert run.states[0].stores == EmptyFiles(c.chunk, c.n);
    }
  }

  /** What step `l` writes lies where the accepted send `id` of a write says, and is its
      slice if it is written well. */
  ghost predicate EffectIsSend(c: Config, s: System, l: Label, id: SendId)
    requires ValidConfig(c) && EffectOf(s, l) != []
  {
    && ValidSend(c, s, l.minion, id) && s.tasks[id.uid].request.op == Write
    && var sent := AppliedBy(OutgoingOf(c, s.tasks[id.uid].request, id.uid, id.k, id.trailer));
       var w := EffectOf(s, l)[0];
       && w.minion == sent.minion == l.minion && w.at == sent.at && |w.data| == |sent.data|
       && (l.good ==> w == sent)
  }

  /** Whatever is written goes to the minion and the place of a send of an accepted
      request, and if it was written well it is that send's slice. */
  lemma EffectsAreSends(c: Config, run: Run, t: nat) returns (id: SendId)
    requires ValidConfig(c) && IsRun(c, run) && t < |run.labels| && EffectOf(run.states[t], run.labels[t]) != []
    ensures |EffectOf(run.states[t], run.labels[t])| == 1 && run.labels[t].Serve?
    ensures EffectIsSend(c, run.states[t], run.labels[t], id)
    ensures IsSend(c, run.states[t], run.labels[t].minion, run.labels[t].packet, id)
    ensures Deliver(run.labels[t].packet) == Some(MessageOf(c, run.states[t], run.labels[t].minion, id))
  {
    var s, l := run.states[t], run.labels[t];
    StepOfRun(c, run, t);
    RequestsAreSends(c, run, t);
    assert WasSent(c, s, l.minion, l.packet);
    id :| IsSend(c, s, l.minion, l.packet, id);
    RequestArrives(c, s, l.minion, l.packet, id);
    SendFitsWire(c, s, l.minion, id);
  }

  /** If the writes served are those of `ws`, each done on both mirrors before the next, byte
      `l` of minion `m` is the latest byte of `ws` at either of its two logical addresses. */
  lemma SerialRunStores(c: Config, run: Run, t: nat, ws: seq<DiskWrite>, m: nat, l: nat, a: nat, b: nat)
    requires ValidConfig(c) && IsRun(c, run) && t < |run.states|
    requires AllInOneChunk(ws, c.chunk, c.n) && Serial(ws, ServedWrites(run, t), c.chunk, c.n)
    requires Aliases(m, l, a, b, c.chunk, c.n)
    ensures Cell(run.states[t].stores, m, l, Latest(ws, a, b))
  {
    StoresAreReplays(c, run, t);
    SerialStoresLatest(ws, ServedWrites(run, t), c.chunk, c.n, m, l, a, b);
  }
}
