/** What the client makes of each queued frame, field by field, and that everything it does is a
    run of custody operations, so that what those keep holds of the client. */
module ClientLaws {
  import opened ContractA
  import opened Lists
  import opened Worlds
  import opened Clients
  import opened OperationLaws
  import Local = LocalCustody
  import Sessions = Answers

  // ---- an answer to a MIGRATE_OUT ------------------------------------------------------

  /** The record of `id` is gone, and so is the entry of its organism. */
  predicate Settled(x: Exporter, x': Exporter, id: MigrationId)
    requires id in x.inFlight
  {
    x'.inFlight == x.inFlight - {id} && x'.byEntity == x.byEntity - {x.inFlight[id].entityId}
  }

  /** An ACK for a migration in flight: the record goes, the organism has left for good. */
  lemma AckSettles(w: World, id: MigrationId, entityId: int, env: InEnv)
    requires id in w.exporter.inFlight
    ensures var w' := ApplyMutation(w, MigrateOutAck(Some(id), Some(entityId)), env); var r := w.exporter.inFlight[id];
      && Settled(w.exporter, w'.exporter, id)
      && w'.exporter.cooldowns == w.exporter.cooldowns - {r.entityId}
      && !Usable(w'.game, r.body)
      && w'.importer.seen == w.importer.seen && w'.importer.ledgerSession == w.importer.ledgerSession
      && w'.sent == w.sent
      && if Usable(w.game, r.body)
         then Destroyed(w.game, w'.game, r.body) && w'.importer.immunity == w.importer.immunity - {r.entityId}
         else w'.game == w.game && w'.importer.immunity == w.importer.immunity
  {
    if Usable(w.game, w.exporter.inFlight[id].body) { DestroyMeans(w.game, w.exporter.inFlight[id].body); }
  }

  /** One body is marked destroyed and, if it was tracked once, is tracked no more; the others are as
      they were. */
  ghost predicate Destroyed(g: Game, g': Game, h: Handle) {
    && h in g.bodies && SameBodiesBut(g, g', h) && g'.bodies[h] == g.bodies[h].(destroyed := true)
    && (Distinct(g.tracker) ==> forall k :: k in g'.tracker <==> k in g.tracker && k != h)
  }

  lemma DestroyMeans(g: Game, h: Handle)
    requires h in g.bodies
    ensures Destroyed(g, DestroyCleanly(g, h), h)
  {
    if Distinct(g.tracker) { WithoutMeans(g.tracker, h); }
  }

  /** An ACK for an id this world does not know: the first tracked body it names is destroyed, and
      without one nothing happens. */
  lemma AckOfUnknown(w: World, id: MigrationId, entityId: int, env: InEnv)
    requires id !in w.exporter.inFlight
    ensures var w' := ApplyMutation(w, MigrateOutAck(Some(id), Some(entityId)), env);
      && w'.exporter.inFlight == w.exporter.inFlight && w'.exporter.byEntity == w.exporter.byEntity
      && w'.sent == w.sent && w'.importer.seen == w.importer.seen
      && if entityId == 0 || forall h | h in w.game.tracker && Usable(w.game, h) :: w.game.bodies[h].id != entityId
         then w' == w
         else
           && w'.exporter.cooldowns == w.exporter.cooldowns - {entityId}
           && w'.importer.immunity == w.importer.immunity - {entityId}
           && exists i :: IsFirstWithId(w.game, w.game.tracker, entityId, i)
                          && Destroyed(w.game, w'.game, w.game.tracker[i])
  {
    ScanMeans(w.game, w.game.tracker, entityId);
    if FindBodyById(w.game, entityId).Some? {
      var i :| 0 <= i < |w.game.tracker| && IsFirstWithId(w.game, w.game.tracker, entityId, i)
               && FirstWithId(w.game, w.game.tracker, entityId) == Some(w.game.tracker[i]);
      DestroyMeans(w.game, w.game.tracker[i]);
      assert w.game.tracker[i] in w.game.tracker;
    }
  }

  /** The organism of a refused migration: back to life if its body is still there. */
  ghost predicate Revived(g: Game, g': Game, h: Handle) {
    if Usable(g, h) then
      && SameBodiesBut(g, g', h) && g'.bodies[h] == g.bodies[h].(enabled := true, simulated := true)
      && g'.tracker == if h in g.tracker then g.tracker else g.tracker + [h]
    else g' == g
  }

  /** A NACK for a migration in flight: the record goes, the body lives again, and the organism
      cools at the edge it left by, for good exactly when the class says "permanent", for at least
      the default and the stated time otherwise. */
  lemma NackSettles(w: World, id: MigrationId, entityId: int, code: OutNackCode, nackClass: Option<string>,
      retry: Option<int>, env: InEnv)
    requires id in w.exporter.inFlight
    ensures var w' := ApplyMutation(w, MigrateOutNack(Some(id), Some(entityId), code, nackClass, retry), env);
      var r := w.exporter.inFlight[id];
      && Settled(w.exporter, w'.exporter, id) && Revived(w.game, w'.game, r.body)
      && w'.importer == w.importer && w'.sent == w.sent
      && (forall e | e != r.entityId :: (e in w'.exporter.cooldowns <==> e in w.exporter.cooldowns)
           && (e in w.exporter.cooldowns ==> w'.exporter.cooldowns[e] == w.exporter.cooldowns[e]))
      && r.entityId in w'.exporter.cooldowns
      && CoolsFor(w'.exporter.cooldowns[r.entityId], w.game.simTime, r.exitEdge, nackClass == Some("permanent"), retry)
  {
  }

  /** Cools at `edge`, until the later of the default and the stated time from `now`. */
  predicate CoolsFor(c: Cooldown, now: real, edge: Edge, permanent: bool, retry: Option<int>) {
    var stated := if retry.Some? then retry.value as real / 1000.0 else 0.0;
    c.permanent == permanent && c.requireExit && c.edge == edge
    && c.untilSimTime - now >= 5.0 && c.untilSimTime - now >= stated
    && (c.untilSimTime - now == 5.0 || c.untilSimTime - now == stated)
  }

  /** An answer without its id or its organism, or a refusal of an unknown id, changes nothing. */
  lemma IncompleteAnswersChangeNothing(w: World, m: Mutation, env: InEnv)
    requires m.MigrateOutAck? ==> m.ackId.None? || m.ackEntity.None?
    requires m.MigrateOutNack? ==> m.nackId.None? || m.nackEntity.None? || m.nackId.value !in w.exporter.inFlight
    requires !m.MigrateIn?
    ensures ApplyMutation(w, m, env) == w
  {
  }

  // ---- every queued frame is a custody operation ---------------------------------------

  function OpsOf(m: Mutation, env: InEnv): seq<Local.Op> {
    match m
    case MigrateIn(data) => [Local.In(data, env)]
    case MigrateOutAck(id, e) => if id.Some? && e.Some? then [Local.Ack(id.value, e.value)] else []
    case MigrateOutNack(id, e, _, nackClass, retry) =>
      if id.Some? && e.Some? then [Local.Nack(id.value, nackClass == Some("permanent"), retry)] else []
  }

  function BatchOps(batch: seq<Pending>, envs: seq<InEnv>): seq<Local.Op>
    requires |batch| <= |envs|
  {
    if batch == [] then []
    else
      var n := |batch| - 1;
      BatchOps(batch[..n], envs) + OpsOf(batch[n].mutation, envs[n])
  }

  /** The stale deliveries of a paused game, latest first. */
  function PausedOps(s: seq<Pending>, now: real): seq<Local.Op> {
    if s == [] then []
    else PausedOps(s[1..], now) + if Stale(s[0], now) then [Local.NackIn(s[0].mutation.data, SimNotReady)] else []
  }

  /** A reconnect: the handshake, CONFIG_UPDATE, and the replay. */
  function ReconnectOps(session: string, order: seq<MigrationId>, realtime: real): seq<Local.Op> {
    [Local.Handshake(session), Local.Greets(session), Local.Replay(order, realtime)]
  }

  lemma {:induction false} RunConcat(w: World, a: seq<Local.Op>, b: seq<Local.Op>)
    requires Local.Legal(w, a) && Local.Legal(Local.Run(w, a), b)
    ensures Local.Legal(w, a + b) && Local.Run(w, a + b) == Local.Run(Local.Run(w, a), b)
    decreases |a|
  {
    if a == [] {
      assert a + b == b;
    } else {
      assert (a + b)[0] == a[0] && (a + b)[1..] == a[1..] + b;
      RunConcat(Local.Apply(w, a[0]), a[1..], b);
    }
  }

  lemma RunOne(w: World, op: Local.Op)
    requires Local.Allowed(w, op)
    ensures Local.Legal(w, [op]) && Local.Run(w, [op]) == Local.Apply(w, op)
  {
    assert [op][1..] == [];
  }

  /** Each restore in the batch brings back a new object under the id its delivery names. */
  ghost predicate BatchAllowed(w: World, batch: seq<Pending>, envs: seq<InEnv>)
    requires |batch| <= |envs|
  {
    batch == []
    || (var n := |batch| - 1; var m := batch[n].mutation;
        && BatchAllowed(w, batch[..n], envs)
        && (m.MigrateIn? ==> Local.Allowed(ApplyBatch(w, batch[..n], envs), Local.In(m.data, envs[n]))))
  }

  lemma MutationIsRun(w: World, m: Mutation, env: InEnv)
    requires m.MigrateIn? ==> Local.Allowed(w, Local.In(m.data, env))
    ensures Local.Legal(w, OpsOf(m, env)) && Local.Run(w, OpsOf(m, env)) == ApplyMutation(w, m, env)
  {
    if OpsOf(m, env) != [] { RunOne(w, OpsOf(m, env)[0]); }
  }

  /** A batch of queued frames is a run of custody operations, each frame one or none. */
  lemma {:induction false} BatchIsRun(w: World, batch: seq<Pending>, envs: seq<InEnv>)
    requires |batch| <= |envs| && BatchAllowed(w, batch, envs)
    ensures Local.Legal(w, BatchOps(batch, envs)) && Local.Run(w, BatchOps(batch, envs)) == ApplyBatch(w, batch, envs)
  {
    if batch != [] {
      var n := |batch| - 1;
      BatchIsRun(w, batch[..n], envs);
      MutationIsRun(ApplyBatch(w, batch[..n], envs), batch[n].mutation, envs[n]);
      RunConcat(w, BatchOps(batch[..n], envs), OpsOf(batch[n].mutation, envs[n]));
    }
  }

  lemma {:induction false} PauseIsRun(w: World, s: seq<Pending>, now: real)
    ensures Local.Legal(w, PausedOps(s, now)) && Local.Run(w, PausedOps(s, now)) == RefuseStale(w, s, now)
  {
    if s != [] {
      PauseIsRun(w, s[1..], now);
      var v := RefuseStale(w, s[1..], now);
      if Stale(s[0], now) {
        RunOne(v, Local.NackIn(s[0].mutation.data, SimNotReady));
        RunConcat(w, PausedOps(s[1..], now), [Local.NackIn(s[0].mutation.data, SimNotReady)]);
      } else {
        assert PausedOps(s, now) == PausedOps(s[1..], now);
      }
    }
  }

  lemma ReconnectIsRun(w: World, session: string, order: seq<MigrationId>, realtime: real)
    requires Enumerates(order, w.exporter.inFlight.Keys)
    ensures Local.Legal(w, ReconnectOps(session, order, realtime))
    ensures Local.Run(w, ReconnectOps(session, order, realtime)) == Connected(w, session, order, realtime)
  {
    var v := Local.Apply(w, Local.Handshake(session));
    var u := Local.Apply(v, Local.Greets(session));
    RunOne(u, Local.Replay(order, realtime));
    RunOne(v, Local.Greets(session));
    RunOne(w, Local.Handshake(session));
    RunConcat(v, [Local.Greets(session)], [Local.Replay(order, realtime)]);
    RunConcat(w, [Local.Handshake(session)], [Local.Greets(session)] + [Local.Replay(order, realtime)]);
    assert ReconnectOps(session, order, realtime)
        == [Local.Handshake(session)] + ([Local.Greets(session)] + [Local.Replay(order, realtime)]);
  }

  // ---- whole sessions ------------------------------------------------------------------

  /** What the game and the dictionary guarantee of a client step, besides its being possible. */
  ghost predicate Sound(c: Client, op: Sessions.ClientOp)
    requires Sessions.Possible(c, op)
  {
    match op
    case FixedUpdate(n, envs) => BatchAllowed(c.world, c.pending[..n], envs)
    case Reconnected(order, _) => Enumerates(order, c.world.exporter.inFlight.Keys)
    case _ => true
  }

  ghost function StepOps(c: Client, session: string, op: Sessions.ClientOp): seq<Local.Op>
    requires Sessions.Possible(c, op)
  {
    match op
    case Arrives(_, _) => []
    case FixedUpdate(n, envs) => BatchOps(c.pending[..n], envs)
    case PausedUpdate(now) => PausedOps(c.pending, now)
    case Reconnected(order, realtime) => ReconnectOps(session, order, realtime)
    case Other(o) => [o]
  }

  lemma StepIsRun(c: Client, session: string, op: Sessions.ClientOp)
    requires Sessions.Possible(c, op) && Sound(c, op)
    ensures Local.Legal(c.world, StepOps(c, session, op))
    ensures Local.Run(c.world, StepOps(c, session, op)) == Sessions.Do(c, session, op).world
  {
    match op
    case Arrives(_, _) =>
    case FixedUpdate(n, envs) => BatchIsRun(c.world, c.pending[..n], envs);
    case PausedUpdate(now) => PauseIsRun(c.world, c.pending, now);
    case Reconnected(order, realtime) => ReconnectIsRun(c.world, session, order, realtime);
    case Other(o) => RunOne(c.world, o);
  }

  ghost predicate AllSound(c: Client, session: string, ops: seq<Sessions.ClientOp>)
    requires Sessions.Legal(c, session, ops)
    decreases |ops|
  {
    ops == [] || (Sound(c, ops[0]) && AllSound(Sessions.Do(c, session, ops[0]), session, ops[1..]))
  }

  ghost function SessionOps(c: Client, session: string, ops: seq<Sessions.ClientOp>): seq<Local.Op>
    requires Sessions.Legal(c, session, ops)
    decreases |ops|
  {
    if ops == [] then []
    else StepOps(c, session, ops[0]) + SessionOps(Sessions.Do(c, session, ops[0]), session, ops[1..])
  }

  /** Whatever arrives, whenever it is handled, refused or replayed: a client session is a run of
      custody operations. */
  lemma {:induction false} SessionIsRun(c: Client, session: string, ops: seq<Sessions.ClientOp>)
    requires Sessions.Legal(c, session, ops) && AllSound(c, session, ops)
    ensures Local.Legal(c.world, SessionOps(c, session, ops))
    ensures Local.Run(c.world, SessionOps(c, session, ops)) == Sessions.Run(c, session, ops).world
    decreases |ops|
  {
    if ops != [] {
      var d := Sessions.Do(c, session, ops[0]);
      StepIsRun(c, session, ops[0]);
      SessionIsRun(d, session, ops[1..]);
      RunConcat(c.world, StepOps(c, session, ops[0]), SessionOps(d, session, ops[1..]));
    }
  }

  /** So every client session keeps custody: tables inverse, frozen exactly what is in flight, one
      body an id, one frame a migration. */
  lemma ClientKeepsCustody(c: Client, session: string, ops: seq<Sessions.ClientOp>)
    requires Local.Inv(c.world) || Local.Armed(c.world)
    requires Sessions.Legal(c, session, ops) && AllSound(c, session, ops)
    ensures Local.Inv(Sessions.Run(c, session, ops).world)
  {
    SessionIsRun(c, session, ops);
    Local.SessionKeepsCustody(c.world, SessionOps(c, session, ops));
  }

  // ---- a pause, and the end ------------------------------------------------------------

  /** A delivery is stale after two seconds of real time in the queue; no other frame ever is. */
  lemma StaleMeans(p: Pending, now: real)
    ensures Stale(p, now) <==> p.mutation.MigrateIn? && now - p.queuedAt >= 2.0
  {
  }

  /** Only refusals with this code, which are transient, were appended. */
  ghost predicate OnlyRefuses(w: World, w': World, code: NackCode) {
    && w.sent <= w'.sent && w' == w.(sent := w'.sent)
    && forall f | f in w'.sent[|w.sent|..] :: f.InNack? && f.code == code && !f.permanent
  }

  lemma OneMoreRefused(w: World, v: World, data: InData, code: NackCode)
    requires OnlyRefuses(w, v, code) && (code == SimNotReady || code == ShuttingDown)
    ensures OnlyRefuses(w, NackUnhandled(v, data, code), code)
  {
    UnhandledMeans(v, data, code);
    if UsableId(data) {
      assert (v.sent + [Nacked(data, code)])[|w.sent|..] == v.sent[|w.sent|..] + [Nacked(data, code)];
    }
  }

  /** A pause refuses with SIM_NOT_READY, transient, and does nothing else to the world. */
  lemma {:induction false} PauseRefuses(w: World, s: seq<Pending>, now: real)
    ensures OnlyRefuses(w, RefuseStale(w, s, now), SimNotReady)
  {
    if s == [] {
      assert w.sent[|w.sent|..] == [];
    } else {
      PauseRefuses(w, s[1..], now);
      if Stale(s[0], now) { OneMoreRefused(w, RefuseStale(w, s[1..], now), s[0].mutation.data, SimNotReady); }
    }
  }

  /** An unload refuses with SHUTTING_DOWN, transient, and does nothing else to the world. */
  lemma {:induction false} UnloadRefuses(w: World, s: seq<Pending>)
    ensures OnlyRefuses(w, RefuseAll(w, s), ShuttingDown)
  {
    if s == [] {
      assert w.sent[|w.sent|..] == [];
    } else {
      var n := |s| - 1;
      UnloadRefuses(w, s[..n]);
      if s[n].mutation.MigrateIn? { OneMoreRefused(w, RefuseAll(w, s[..n]), s[n].mutation.data, ShuttingDown); }
    }
  }

  /** After it nothing is in flight, nothing remembered, nobody immune, and no body was touched. */
  lemma UnloadForgets(w: World)
    requires Local.Inv(w)
    ensures var w' := Unloaded(w);
      && w'.exporter.inFlight == map[] && w'.exporter.byEntity == map[]
      && w'.importer == Importer({}, map[], None) && w'.game == w.game && w'.sent == w.sent
      && w'.exporter.cooldowns == if w.exporter.inFlight == map[] then w.exporter.cooldowns else map[]
  {
    if w.exporter.inFlight == map[] {
      assert forall e :: e !in w.exporter.byEntity;
      assert w.exporter.byEntity == map[];
    }
  }
}
