/** What one world keeps over every run of custody operations, whatever the sidecar sends and
    in whatever order: the two in-flight tables stay each other's inverse, the frozen bodies
    are exactly the in-flight ones, a frozen body changes only through an answer to its own
    id, and every resend of an id is the identical frame. */
module LocalCustody {
  import opened ContractA
  import opened Lists
  import opened Worlds

  // ---- operations ----------------------------------------------------------------------

  /** One atomic step of the game thread (or of the game itself: Born, Dies, Elapse). */
  datatype Op =
    | Begin(h: Handle, edge: Edge, probe: Probe, newId: MigrationId, messageId: nat, realtime: real)
    | Replay(order: seq<MigrationId>, realtime: real)
    | Timeouts(realtime: real)
    | Ack(id: MigrationId, entityId: int)
    | Nack(id: MigrationId, permanent: bool, retryAfterMs: Option<int>)
    | In(data: InData, env: InEnv)
    | NackIn(data: InData, code: NackCode)
    | Handshake(session: string)
    | Greets(session: string)
    | AskBlocked(entityId: int, clear: bool)
    | AskImmune(entityId: int)
    | Born(h: Handle, newborn: int)
    | Dies(h: Handle)
    | Elapse(simTime: real)

  ghost predicate IdUnsent(w: World, id: MigrationId) {
    forall f | f in w.sent && f.MigrateOut? :: f.out.migrationId != id
  }

  /** What the code and the game guarantee about an operation: a capture runs inside the tick
      of a live body and mints a new uuid; a replay walks the whole table; a restored body is a
      new object under the id the frame names; a birth mints an unused non-zero id. */
  ghost predicate Allowed(w: World, op: Op) {
    match op
    case Begin(h, _, _, newId, _, _) => Active(w.game, h) && newId !in w.exporter.inFlight && IdUnsent(w, newId)
    case Replay(order, _) => Enumerates(order, w.exporter.inFlight.Keys)
    case In(data, env) =>
      env.restore.Restored? ==>
        env.restore.handle !in w.game.bodies && env.restore.restoredId == EntityOf(data) && EntityOf(data) != 0
    case Born(h, id) => h !in w.game.bodies && id != 0 && !HasId(w.game, id)
    case Dies(h) => Usable(w.game, h)
    case _ => true
  }

  ghost function Apply(w: World, op: Op): World
    requires Allowed(w, op)
  {
    match op
    case Begin(h, edge, probe, newId, messageId, realtime) => TryBegin(w, h, edge, probe, newId, messageId, realtime)
    case Replay(order, realtime) => ReplayOnReconnect(w, order, realtime)
    case Timeouts(realtime) => CheckTimeouts(w, realtime)
    case Ack(id, entityId) => HandleAck(w, id, entityId)
    case Nack(id, permanent, retry) => HandleNack(w, id, permanent, retry)
    case In(data, env) => HandleIn(w, data, env)
    case NackIn(data, code) => NackUnhandled(w, data, code)
    case Handshake(session) => w.(importer := OnHandshake(w.importer, session))
    case Greets(session) => Send(w, ConfigUpdate(session))
    case AskBlocked(e, clear) => w.(exporter := Unblocked(w.exporter, w.game.simTime, e, clear).1)
    case AskImmune(e) => w.(importer := HasImmunity(w.importer, w.game.simTime, e).1)
    case Born(h, id) => w.(game := Stand(w.game, h, id))
    case Dies(h) => w.(game := DestroyCleanly(w.game, h))
    case Elapse(t) => w.(game := w.game.(simTime := t))
  }

  // ---- the invariant -------------------------------------------------------------------

  ghost predicate HasId(g: Game, id: int) {
    exists h :: Usable(g, h) && g.bodies[h].id == id
  }

  /** The tracker lists exactly the live bodies, once each, and no two bodies share an id. */
  ghost predicate GameOk(g: Game) {
    && Distinct(g.tracker)
    && (forall h :: h in g.tracker <==> Active(g, h))
    && (forall h | Usable(g, h) :: g.bodies[h].id != 0 && g.bodies[h].enabled == g.bodies[h].simulated)
    && (forall h, k | Usable(g, h) && Usable(g, k) && g.bodies[h].id == g.bodies[k].id :: h == k)
  }

  ghost predicate RecordOk(w: World, id: MigrationId)
    requires id in w.exporter.inFlight
  {
    var r := w.exporter.inFlight[id];
    && r.migrationId == id
    && r.frame.migrationId == id && r.frame.entityId == r.entityId && r.frame.exitEdge == r.exitEdge
    && r.entityId in w.exporter.byEntity && w.exporter.byEntity[r.entityId] == id
    && r.body in w.game.bodies && w.game.bodies[r.body].id == r.entityId && !Active(w.game, r.body)
  }

  ghost predicate IndexOk(x: Exporter) {
    forall e | e in x.byEntity :: x.byEntity[e] in x.inFlight && x.inFlight[x.byEntity[e]].entityId == e
  }

  /** `h` is the body of the in-flight record that `id` names. */
  ghost predicate BoundTo(w: World, h: Handle, id: MigrationId) {
    id in w.exporter.inFlight && w.exporter.inFlight[id].body == h
  }

  ghost predicate FrozenOk(w: World) {
    forall h | Frozen(w.game, h) ::
      w.game.bodies[h].id in w.exporter.byEntity && BoundTo(w, h, w.exporter.byEntity[w.game.bodies[h].id])
  }

  ghost predicate FramesOk(w: World) {
    && (forall f, g | f in w.sent && g in w.sent && f.MigrateOut? && g.MigrateOut? ::
          f.out.migrationId == g.out.migrationId ==> f == g)
    && (forall id | id in w.exporter.inFlight :: MigrateOut(w.exporter.inFlight[id].frame) in w.sent)
  }

  ghost predicate Inv(w: World) {
    && GameOk(w.game)
    && (forall id | id in w.exporter.inFlight :: RecordOk(w, id))
    && IndexOk(w.exporter)
    && FrozenOk(w)
    && FramesOk(w)
  }

  // ---- the game's operations -----------------------------------------------------------

  lemma DestroyKeeps(g: Game, h: Handle)
    requires GameOk(g) && h in g.bodies
    ensures var d := DestroyCleanly(g, h);
      && GameOk(d) && !Usable(d, h)
      && forall k | k != h :: (Usable(d, k) <==> Usable(g, k)) && (Active(d, k) <==> Active(g, k))
  {
    WithoutMeans(g.tracker, h);
  }

  lemma FreezeKeeps(g: Game, h: Handle)
    requires GameOk(g) && h in g.bodies
    ensures var f := Freeze(g, h);
      && GameOk(f) && !Active(f, h)
      && forall k | k != h :: (Usable(f, k) <==> Usable(g, k)) && (Active(f, k) <==> Active(g, k))
  {
    WithoutMeans(g.tracker, h);
  }

  /** Taking a body out of the running set, one way or the other, keeps the game sound. */
  lemma RetireKeeps(g: Game, h: Handle)
    requires GameOk(g) && h in g.bodies
    ensures GameOk(DestroyCleanly(g, h)) && GameOk(Freeze(g, h))
    ensures !Usable(DestroyCleanly(g, h), h) && !Active(Freeze(g, h), h)
    ensures forall k | k != h ::
      (Usable(DestroyCleanly(g, h), k) <==> Usable(g, k)) && (Active(DestroyCleanly(g, h), k) <==> Active(g, k))
      && (Usable(Freeze(g, h), k) <==> Usable(g, k)) && (Active(Freeze(g, h), k) <==> Active(g, k))
  {
    DestroyKeeps(g, h);
    FreezeKeeps(g, h);
  }

  lemma ReviveKeeps(g: Game, h: Handle)
    requires GameOk(g) && h in g.bodies
    ensures GameOk(Revive(g, h))
    ensures Active(Revive(g, h), h) <==> Usable(g, h)
    ensures forall k | k != h ::
      (Usable(Revive(g, h), k) <==> Usable(g, k)) && (Active(Revive(g, h), k) <==> Active(g, k))
  {
    if h !in g.tracker { DistinctAppend(g.tracker, h); }
  }

  lemma StandKeeps(g: Game, h: Handle, id: int)
    requires GameOk(g) && h !in g.bodies && id != 0 && !HasId(g, id)
    ensures GameOk(Stand(g, h, id)) && Active(Stand(g, h, id), h)
    ensures forall k | k != h ::
      (Usable(Stand(g, h, id), k) <==> Usable(g, k)) && (Active(Stand(g, h, id), k) <==> Active(g, k))
  {
    DistinctAppend(g.tracker, h);
  }

  lemma {:induction false} FirstWithIdFinds(g: Game, s: seq<Handle>, id: int)
    ensures FirstWithId(g, s, id).Some? ==>
      && FirstWithId(g, s, id).value in s
      && Usable(g, FirstWithId(g, s, id).value)
      && g.bodies[FirstWithId(g, s, id).value].id == id
    ensures FirstWithId(g, s, id).None? ==> forall h | h in s && Usable(g, h) :: g.bodies[h].id != id
  {
    if s != [] {
      FirstWithIdFinds(g, s[1..], id);
    }
  }

  /** In a sound game the scan by id finds the one live body with that id, if there is one. */
  lemma FindIsExact(g: Game, id: int)
    requires GameOk(g)
    ensures FindBodyById(g, id).Some? ==>
      Active(g, FindBodyById(g, id).value) && g.bodies[FindBodyById(g, id).value].id == id
    ensures FindBodyById(g, id).None? ==> forall h | Active(g, h) :: g.bodies[h].id != id
  {
    FirstWithIdFinds(g, g.tracker, id);
  }

  // ---- each operation keeps the invariant ----------------------------------------------

  lemma BeginKeeps(w: World, h: Handle, edge: Edge, probe: Probe, newId: MigrationId, messageId: nat, realtime: real)
    requires Inv(w) && Allowed(w, Begin(h, edge, probe, newId, messageId, realtime))
    ensures Inv(TryBegin(w, h, edge, probe, newId, messageId, realtime))
  {
    var w' := TryBegin(w, h, edge, probe, newId, messageId, realtime);
    if Begins(w, h, probe) {
      BegunKeeps(w, h, newId, w'.exporter.inFlight[newId], w');
    } else {
      QuietKeeps(w, w');
    }
  }

  lemma BegunFrames(w: World, id: MigrationId, r: InFlight, w': World)
    requires FramesOk(w) && id !in w.exporter.inFlight && IdUnsent(w, id) && r.frame.migrationId == id
    requires w'.sent == w.sent + [MigrateOut(r.frame)] && w'.exporter.inFlight == w.exporter.inFlight[id := r]
    ensures FramesOk(w')
  {
  }

  /** What a begun capture changes, seen from the tables and the bodies. */
  ghost predicate Begun(w: World, h: Handle, id: MigrationId, r: InFlight, w': World) {
    && Active(w.game, h) && id !in w.exporter.inFlight
    && r.body == h && r.entityId == w.game.bodies[h].id && r.entityId !in w.exporter.byEntity
    && r.migrationId == id == r.frame.migrationId && r.frame.entityId == r.entityId && r.frame.exitEdge == r.exitEdge
    && w'.game == Freeze(w.game, h)
    && w'.exporter.inFlight == w.exporter.inFlight[id := r]
      && w'.exporter.byEntity == w.exporter.byEntity[r.entityId := id]
  }

  lemma BegunRecords(w: World, h: Handle, id: MigrationId, r: InFlight, w': World, k: MigrationId)
    requires Inv(w) && Begun(w, h, id, r, w') && k in w'.exporter.inFlight
    ensures RecordOk(w', k)
  {
    FreezeKeeps(w.game, h);
    if k != id { assert RecordOk(w, k); }
  }

  lemma BegunFrozen(w: World, h: Handle, id: MigrationId, r: InFlight, w': World, k: Handle)
    requires Inv(w) && Begun(w, h, id, r, w') && Frozen(w'.game, k)
    ensures w'.game.bodies[k].id in w'.exporter.byEntity && BoundTo(w', k, w'.exporter.byEntity[w'.game.bodies[k].id])
  {
    FreezeKeeps(w.game, h);
    if k != h {
      assert Frozen(w.game, k) && BoundTo(w, k, w.exporter.byEntity[w.game.bodies[k].id]);
    }
  }

  lemma BegunKeeps(w: World, h: Handle, id: MigrationId, r: InFlight, w': World)
    requires Inv(w) && Begun(w, h, id, r, w') && IdUnsent(w, id) && w'.sent == w.sent + [MigrateOut(r.frame)]
    ensures Inv(w')
  {
    FreezeKeeps(w.game, h);
    BegunFrames(w, id, r, w');
    forall k | k in w'.exporter.inFlight ensures RecordOk(w', k) { BegunRecords(w, h, id, r, w', k); }
    forall k | Frozen(w'.game, k)
      ensures w'.game.bodies[k].id in w'.exporter.byEntity && BoundTo(w', k, w'.exporter.byEntity[w'.game.bodies[k].id])
    {
      BegunFrozen(w, h, id, r, w', k);
    }
  }

  lemma DestroyForCustodyKeeps(w: World, h: Handle, e: int)
    requires GameOk(w.game) && IndexOk(w.exporter) && FramesOk(w)
    requires forall id | id in w.exporter.inFlight :: RecordOk(w, id)
    requires forall k | Frozen(w.game, k) && k != h ::
      w.game.bodies[k].id in w.exporter.byEntity && BoundTo(w, k, w.exporter.byEntity[w.game.bodies[k].id])
    ensures Inv(DestroyForCustody(w, h, e))
  {
    var w' := DestroyForCustody(w, h, e);
    if Usable(w.game, h) {
      RetireKeeps(w.game, h);
    }
    forall id | id in w'.exporter.inFlight ensures RecordOk(w', id) { assert RecordOk(w, id); }
  }

  lemma SettleKeeps(w: World, id: MigrationId)
    requires Inv(w) && id in w.exporter.inFlight
    ensures var w' := w.(exporter := Settle(w.exporter, id));
      && IndexOk(w'.exporter) && FramesOk(w')
      && (forall k | k in w'.exporter.inFlight :: RecordOk(w', k))
      && (forall k | Frozen(w.game, k) && k != w.exporter.inFlight[id].body ::
            w.game.bodies[k].id in w'.exporter.byEntity && BoundTo(w', k, w'.exporter.byEntity[w.game.bodies[k].id]))
  {
    var w' := w.(exporter := Settle(w.exporter, id));
    SettleTables(w, id);
    forall k | Frozen(w.game, k) && k != w.exporter.inFlight[id].body
      ensures w.game.bodies[k].id in w'.exporter.byEntity && BoundTo(w', k, w'.exporter.byEntity[w.game.bodies[k].id])
    {
      SettleBound(w, id, k);
    }
  }

  lemma SettleTables(w: World, id: MigrationId)
    requires Inv(w) && id in w.exporter.inFlight
    ensures var w' := w.(exporter := Settle(w.exporter, id));
      IndexOk(w'.exporter) && FramesOk(w') && forall k | k in w'.exporter.inFlight :: RecordOk(w', k)
  {
    var w' := w.(exporter := Settle(w.exporter, id));
    assert RecordOk(w, id);
    forall k | k in w'.exporter.inFlight ensures RecordOk(w', k) {
      assert RecordOk(w, k);
    }
  }

  lemma SettleBound(w: World, id: MigrationId, k: Handle)
    requires Inv(w) && id in w.exporter.inFlight && Frozen(w.game, k) && k != w.exporter.inFlight[id].body
    ensures var w' := w.(exporter := Settle(w.exporter, id));
      w.game.bodies[k].id in w'.exporter.byEntity && BoundTo(w', k, w'.exporter.byEntity[w.game.bodies[k].id])
  {
    assert RecordOk(w, id);
    assert BoundTo(w, k, w.exporter.byEntity[w.game.bodies[k].id]);
  }

  lemma AckKeeps(w: World, id: MigrationId, e: int)
    requires Inv(w)
    ensures Inv(HandleAck(w, id, e))
  {
    if id in w.exporter.inFlight {
      SettleKeeps(w, id);
      var r := w.exporter.inFlight[id];
      var x := Settle(w.exporter, id);
      var s := w.(exporter := x);
      var v := w.(exporter := x.(cooldowns := x.cooldowns - {r.entityId}));
      forall k | k in v.exporter.inFlight ensures RecordOk(v, k) { assert RecordOk(s, k); }
      forall k | Frozen(v.game, k) && k != r.body
        ensures v.game.bodies[k].id in v.exporter.byEntity && BoundTo(v, k, v.exporter.byEntity[v.game.bodies[k].id])
      {
        assert BoundTo(s, k, s.exporter.byEntity[s.game.bodies[k].id]);
      }
      DestroyForCustodyKeeps(v, r.body, r.entityId);
    } else {
      match FindBodyById(w.game, e)
      case Some(h) =>
        var v := w.(exporter := w.exporter.(cooldowns := w.exporter.cooldowns - {e}));
        forall k | k in v.exporter.inFlight ensures RecordOk(v, k) { assert RecordOk(w, k); }
        forall k | Frozen(v.game, k)
          ensures v.game.bodies[k].id in v.exporter.byEntity && BoundTo(v, k, v.exporter.byEntity[v.game.bodies[k].id])
        {
          assert BoundTo(w, k, w.exporter.byEntity[w.game.bodies[k].id]);
        }
        DestroyForCustodyKeeps(v, h, e);
      case None =>
    }
  }

  lemma NackKeeps(w: World, id: MigrationId, permanent: bool, retry: Option<int>)
    requires Inv(w)
    ensures Inv(HandleNack(w, id, permanent, retry))
  {
    if id in w.exporter.inFlight {
      var w' := HandleNack(w, id, permanent, retry);
      SettleKeeps(w, id);
      var s := w.(exporter := Settle(w.exporter, id));
      var r := w.exporter.inFlight[id];
      assert RecordOk(w, id);
      ReviveKeeps(w.game, r.body);
      forall k | k in w'.exporter.inFlight ensures RecordOk(w', k) {
        assert RecordOk(s, k) && RecordOk(w, k);
      }
      forall k | Frozen(w'.game, k)
        ensures
          && w'.game.bodies[k].id in w'.exporter.byEntity
          && BoundTo(w', k, w'.exporter.byEntity[w'.game.bodies[k].id])
      {
        assert Frozen(w.game, k) && k != r.body;
        assert BoundTo(s, k, s.exporter.byEntity[s.game.bodies[k].id]);
      }
    }
  }

  /** An operation that adds answers and touches only clocks, cooldowns and the importer. */
  lemma QuietKeeps(w: World, w': World)
    requires Inv(w)
    requires w'.game == w.game.(simTime := w'.game.simTime)
    requires w'.exporter == w.exporter.(cooldowns := w'.exporter.cooldowns)
    requires w.sent <= w'.sent && forall f | f in w'.sent[|w.sent|..] :: !f.MigrateOut?
    ensures Inv(w')
  {
    assert w'.sent == w.sent + w'.sent[|w.sent|..];
    forall id | id in w'.exporter.inFlight ensures RecordOk(w', id) { assert RecordOk(w, id); }
    forall k | Frozen(w'.game, k)
      ensures w'.game.bodies[k].id in w'.exporter.byEntity && BoundTo(w', k, w'.exporter.byEntity[w'.game.bodies[k].id])
    {
      assert Frozen(w.game, k) && BoundTo(w, k, w.exporter.byEntity[w.game.bodies[k].id]);
    }
  }

  /** A body that stands up under an id no usable body has. */
  lemma ArrivalKeeps(w: World, h: Handle, id: int)
    requires Inv(w) && h !in w.game.bodies && id != 0 && !HasId(w.game, id)
    ensures Inv(w.(game := Stand(w.game, h, id)))
    ensures Inv(w.(game := DestroyCleanly(Stand(w.game, h, id), h)))
  {
    StandKeeps(w.game, h, id);
    var s := w.(game := Stand(w.game, h, id));
    forall k | k in s.exporter.inFlight ensures RecordOk(s, k) { assert RecordOk(w, k); }
    forall k | Frozen(s.game, k)
      ensures s.game.bodies[k].id in s.exporter.byEntity && BoundTo(s, k, s.exporter.byEntity[s.game.bodies[k].id])
    {
      assert Frozen(w.game, k) && BoundTo(w, k, w.exporter.byEntity[w.game.bodies[k].id]);
    }
    assert Inv(s);
    DiesKeeps(s, h);
  }

  lemma DiesKeeps(w: World, h: Handle)
    requires Inv(w) && Usable(w.game, h)
    ensures Inv(w.(game := DestroyCleanly(w.game, h)))
  {
    RetireKeeps(w.game, h);
    var d := w.(game := DestroyCleanly(w.game, h));
    forall k | k in d.exporter.inFlight ensures RecordOk(d, k) { assert RecordOk(w, k); }
    forall k | Frozen(d.game, k)
      ensures d.game.bodies[k].id in d.exporter.byEntity && BoundTo(d, k, d.exporter.byEntity[d.game.bodies[k].id])
    {
      assert Frozen(w.game, k) && BoundTo(w, k, w.exporter.byEntity[w.game.bodies[k].id]);
    }
  }

  /** Past both dedup keys no usable body has the id: live ones the scan would have found, and
      frozen ones are in flight. */
  lemma DedupIsComplete(w: World, e: int)
    requires Inv(w) && e != 0 && FindBodyById(w.game, e).None? && !IsInFlight(w, e)
    ensures !HasId(w.game, e)
  {
    FindIsExact(w.game, e);
  }

  /** The four things a MIGRATE_IN can do to the world's bodies and tables. */
  lemma InShape(w: World, data: InData, env: InEnv)
    ensures var w' := HandleIn(w, data, env);
      && w'.exporter.inFlight == w.exporter.inFlight && w'.exporter.byEntity == w.exporter.byEntity
      && (w'.game == w.game
          || (&& UsableId(data) && env.restore.Restored?
              && Fold(data.migrationId.value) !in w.importer.seen
              && FindBodyById(w.game, EntityOf(data)).None? && !IsInFlight(w, EntityOf(data))
              && var s := Stand(w.game, env.restore.handle, env.restore.restoredId);
                 w'.game == if env.restore.relinked then s else DestroyCleanly(s, env.restore.handle)))
  {
  }

  lemma InSendsNoExport(w: World, data: InData, env: InEnv)
    ensures var sent := HandleIn(w, data, env).sent;
      w.sent <= sent && forall f | f in sent[|w.sent|..] :: !f.MigrateOut?
  {
  }

  lemma InKeeps(w: World, data: InData, env: InEnv)
    requires Inv(w) && Allowed(w, In(data, env))
    ensures Inv(HandleIn(w, data, env))
  {
    var w' := HandleIn(w, data, env);
    var e := EntityOf(data);
    InSendsNoExport(w, data, env);
    if w'.game == w.game {
      QuietKeeps(w, w');
    } else {
      var id := data.migrationId.value;
      DedupIsComplete(w, e);
      ArrivalKeeps(w, env.restore.handle, e);
      var stood := w.(game := Stand(w.game, env.restore.handle, e));
      if env.restore.relinked {
        QuietKeeps(stood, w');
      } else {
        QuietKeeps(stood.(game := DestroyCleanly(stood.game, env.restore.handle)), w');
      }
    }
  }

  /** A replay puts no frame on the wire that was not sent before. */
  lemma ReplaySendsKnown(w: World, order: seq<MigrationId>, realtime: real)
    requires Inv(w) && Enumerates(order, w.exporter.inFlight.Keys)
    ensures forall f :: f in ReplayOnReconnect(w, order, realtime).sent <==> f in w.sent
  {
    var frames := ReplayFrames(w.exporter.inFlight, order);
    forall f | f in frames ensures f in w.sent {
      var i :| 0 <= i < |frames| && frames[i] == f;
      assert order[i] in order;
    }
  }

  lemma ReplayKeeps(w: World, order: seq<MigrationId>, realtime: real)
    requires Inv(w) && Enumerates(order, w.exporter.inFlight.Keys)
    ensures Inv(ReplayOnReconnect(w, order, realtime))
  {
    var w' := ReplayOnReconnect(w, order, realtime);
    forall id | id in w'.exporter.inFlight ensures RecordOk(w', id) { assert RecordOk(w, id); }
    ReplaySendsKnown(w, order, realtime);
    forall k | Frozen(w'.game, k)
      ensures w'.game.bodies[k].id in w'.exporter.byEntity && BoundTo(w', k, w'.exporter.byEntity[w'.game.bodies[k].id])
    {
      assert BoundTo(w, k, w.exporter.byEntity[w.game.bodies[k].id]);
    }
  }

  lemma TimeoutsKeep(w: World, realtime: real)
    requires Inv(w)
    ensures Inv(CheckTimeouts(w, realtime))
  {
    var w' := CheckTimeouts(w, realtime);
    forall id | id in w'.exporter.inFlight ensures RecordOk(w', id) { assert RecordOk(w, id); }
    forall k | Frozen(w'.game, k)
      ensures w'.game.bodies[k].id in w'.exporter.byEntity && BoundTo(w', k, w'.exporter.byEntity[w'.game.bodies[k].id])
    {
      assert BoundTo(w, k, w.exporter.byEntity[w.game.bodies[k].id]);
    }
  }

  /** Every operation keeps the invariant. */
  lemma StepKeeps(w: World, op: Op)
    requires Inv(w) && Allowed(w, op)
    ensures Inv(Apply(w, op))
  {
    match op
    case Begin(h, edge, probe, newId, messageId, realtime) => BeginKeeps(w, h, edge, probe, newId, messageId, realtime);
    case Replay(order, realtime) => ReplayKeeps(w, order, realtime);
    case Timeouts(realtime) => TimeoutsKeep(w, realtime);
    case Ack(id, e) => AckKeeps(w, id, e);
    case Nack(id, permanent, retry) => NackKeeps(w, id, permanent, retry);
    case In(data, env) => InKeeps(w, data, env);
    case NackIn(_, _) => QuietKeeps(w, Apply(w, op));
    case Handshake(_) => QuietKeeps(w, Apply(w, op));
    case Greets(_) => QuietKeeps(w, Apply(w, op));
    case AskBlocked(_, _) => QuietKeeps(w, Apply(w, op));
    case AskImmune(_) => QuietKeeps(w, Apply(w, op));
    case Born(h, id) => ArrivalKeeps(w, h, id);
    case Dies(h) => DiesKeeps(w, h);
    case Elapse(_) => QuietKeeps(w, Apply(w, op));
  }

  // ---- whole runs ----------------------------------------------------------------------

  ghost predicate Legal(w: World, ops: seq<Op>)
    decreases |ops|
  {
    ops == [] || (Allowed(w, ops[0]) && Legal(Apply(w, ops[0]), ops[1..]))
  }

  ghost function Run(w: World, ops: seq<Op>): World
    requires Legal(w, ops)
    decreases |ops|
  {
    if ops == [] then w else Run(Apply(w, ops[0]), ops[1..])
  }

  /** A freshly armed session: nothing in flight, nothing sent, no frozen body. */
  ghost predicate Armed(w: World) {
    && GameOk(w.game) && (forall h :: !Frozen(w.game, h))
    && w.exporter == Exporter(map[], map[], map[]) && w.sent == []
  }

  /** The custody invariants hold after every run of a session, from its first moment. */
  lemma {:induction false} SessionKeepsCustody(w: World, ops: seq<Op>)
    requires Inv(w) || Armed(w)
    requires Legal(w, ops)
    ensures Inv(Run(w, ops))
    decreases |ops|
  {
    assert Inv(w);
    if ops != [] {
      StepKeeps(w, ops[0]);
      SessionKeepsCustody(Apply(w, ops[0]), ops[1..]);
    }
  }

  /** Read off the invariant: the two tables are inverse to each other, an entity has at most
      one live migration id, and the frozen bodies are exactly the usable in-flight ones. */
  lemma CustodyMeans(w: World)
    requires Inv(w)
    ensures forall id, e :: (e in w.exporter.byEntity && w.exporter.byEntity[e] == id) <==>
                            (id in w.exporter.inFlight && w.exporter.inFlight[id].entityId == e)
    ensures forall h :: Frozen(w.game, h) <==> Usable(w.game, h) && exists id :: BoundTo(w, h, id)
    ensures forall h, k | Usable(w.game, h) && Usable(w.game, k) && w.game.bodies[h].id == w.game.bodies[k].id :: h == k
  {
    forall id, e | id in w.exporter.inFlight && w.exporter.inFlight[id].entityId == e
      ensures e in w.exporter.byEntity && w.exporter.byEntity[e] == id
    {
      assert RecordOk(w, id);
    }
    forall h
      ensures Frozen(w.game, h) <==> Usable(w.game, h) && exists id :: BoundTo(w, h, id)
    {
      if Frozen(w.game, h) {
        assert BoundTo(w, h, w.exporter.byEntity[w.game.bodies[h].id]);
      } else {
        assert forall id | BoundTo(w, h, id) :: RecordOk(w, id);
      }
    }
  }

  /** What one step does to a body frozen under `id`, given whether the step answered `id`. */
  ghost predicate Thaws(w: World, w': World, h: Handle, id: MigrationId, nacked: bool, gone: bool)
    requires BoundTo(w, h, id)
  {
    && (Active(w'.game, h) <==> nacked)
    && (!Usable(w'.game, h) <==> gone)
    && (Frozen(w'.game, h) ==> BoundTo(w', h, id) && w'.exporter.inFlight[id].frame == w.exporter.inFlight[id].frame)
  }

  lemma SettledAckThaws(w: World, h: Handle, id: MigrationId, other: MigrationId, e: int)
    requires Inv(w) && Frozen(w.game, h) && BoundTo(w, h, id) && other in w.exporter.inFlight
    ensures Thaws(w, HandleAck(w, other, e), h, id, false, other == id)
  {
    assert RecordOk(w, id) && RecordOk(w, other);
    DestroyKeeps(w.game, w.exporter.inFlight[other].body);
  }

  lemma UnknownAckThaws(w: World, h: Handle, id: MigrationId, other: MigrationId, e: int)
    requires Inv(w) && Frozen(w.game, h) && BoundTo(w, h, id) && other !in w.exporter.inFlight
    ensures Thaws(w, HandleAck(w, other, e), h, id, false, false)
  {
    FindIsExact(w.game, e);
    if FindBodyById(w.game, e).Some? { DestroyKeeps(w.game, FindBodyById(w.game, e).value); }
  }

  lemma AckThaws(w: World, h: Handle, id: MigrationId, other: MigrationId, e: int)
    requires Inv(w) && Frozen(w.game, h) && BoundTo(w, h, id)
    ensures Thaws(w, HandleAck(w, other, e), h, id, false, other == id)
  {
    if other in w.exporter.inFlight {
      SettledAckThaws(w, h, id, other, e);
    } else {
      UnknownAckThaws(w, h, id, other, e);
    }
  }

  lemma NackThaws(w: World, h: Handle, id: MigrationId, other: MigrationId, permanent: bool, retry: Option<int>)
    requires Inv(w) && Frozen(w.game, h) && BoundTo(w, h, id)
    ensures Thaws(w, HandleNack(w, other, permanent, retry), h, id, other == id, false)
  {
    assert RecordOk(w, id);
    if other in w.exporter.inFlight {
      assert RecordOk(w, other);
      ReviveKeeps(w.game, w.exporter.inFlight[other].body);
    }
  }

  lemma InThaws(w: World, h: Handle, id: MigrationId, data: InData, env: InEnv)
    requires Inv(w) && Frozen(w.game, h) && BoundTo(w, h, id) && Allowed(w, In(data, env))
    ensures Thaws(w, HandleIn(w, data, env), h, id, false, false)
  {
    InShape(w, data, env);
    if HandleIn(w, data, env).game != w.game {
      var b, e := env.restore.handle, EntityOf(data);
      DedupIsComplete(w, e);
      StandKeeps(w.game, b, e);
      RetireKeeps(Stand(w.game, b, e), b);
    }
  }

  lemma BeginThaws(w: World, h: Handle, id: MigrationId, b: Handle, edge: Edge, probe: Probe, newId: MigrationId,
        messageId: nat, realtime: real)
    requires
      && Inv(w)
      && Frozen(w.game, h)
      && BoundTo(w, h, id)
      && Allowed(w, Begin(b, edge, probe, newId, messageId, realtime))
    ensures Thaws(w, TryBegin(w, b, edge, probe, newId, messageId, realtime), h, id, false, false)
  {
    var w' := TryBegin(w, b, edge, probe, newId, messageId, realtime);
    if Begins(w, b, probe) {
      FreezeKeeps(w.game, b);
      assert h != b && id != newId;
    } else {
      assert w'.game == w.game && w'.exporter.inFlight == w.exporter.inFlight;
    }
  }

  lemma GameThaws(w: World, h: Handle, id: MigrationId, b: Handle, i: int)
    requires Inv(w) && Frozen(w.game, h) && BoundTo(w, h, id)
    ensures Allowed(w, Born(b, i)) ==> Thaws(w, Apply(w, Born(b, i)), h, id, false, false)
    ensures Allowed(w, Dies(b)) ==> Thaws(w, Apply(w, Dies(b)), h, id, false, b == h)
  {
    if Allowed(w, Born(b, i)) { StandKeeps(w.game, b, i); }
    if Allowed(w, Dies(b)) { RetireKeeps(w.game, b); }
  }

  /** A body frozen under `id` is revived exactly by a NACK for `id`, destroyed exactly by an
      ACK for `id` (or by the game), and otherwise stays frozen under the same id, with the
      same frame to resend. */
  lemma OnlyItsOwnAnswerThaws(w: World, op: Op, h: Handle, id: MigrationId)
    requires Inv(w) && Allowed(w, op) && Frozen(w.game, h) && BoundTo(w, h, id)
    ensures Thaws(w, Apply(w, op), h, id, op.Nack? && op.id == id, (op.Ack? && op.id == id) || op == Dies(h))
  {
    match op
    case Begin(b, edge, probe, newId, messageId, realtime) =>
      BeginThaws(w, h, id, b, edge, probe, newId, messageId, realtime);
    case Ack(other, e) => AckThaws(w, h, id, other, e);
    case Nack(other, permanent, retry) => NackThaws(w, h, id, other, permanent, retry);
    case In(data, env) => InThaws(w, h, id, data, env);
    case Born(b, i) => GameThaws(w, h, id, b, i);
    case Dies(b) => GameThaws(w, h, id, b, 0);
    case _ =>
  }

  /** Over a whole session, any two MIGRATE_OUTs that carry the same migration id are the
      identical frame, envelope and all. */
  lemma EveryResendIsIdentical(w: World, ops: seq<Op>, f: Frame, g: Frame)
    requires Armed(w) && Legal(w, ops)
    requires f in Run(w, ops).sent && g in Run(w, ops).sent
    requires f.MigrateOut? && g.MigrateOut? && f.out.migrationId == g.out.migrationId
    ensures f == g
  {
    SessionKeepsCustody(w, ops);
  }
}
