/** What each custody operation means, field by field, for the tables, the bodies and the frames:
    nothing here is stated through the operations' own definitions. */
module OperationLaws {
  import opened ContractA
  import opened Lists
  import opened Worlds

  // ---- a capture -----------------------------------------------------------------------

  /** What keeps an organism from travelling, and for how long. */
  predicate CannotTravel(probe: Probe) {
    !probe.finite || probe.serialization.Unserializable?
    || (probe.serialization.Serialized? && probe.serialization.bytes > MAX_PAYLOAD_BYTES)
  }

  /** Only this organism's cooldown is new. */
  predicate OnlyCooled(w: World, w': World, entityId: int, c: Cooldown) {
    w' == w.(exporter := w.exporter.(cooldowns := w.exporter.cooldowns[entityId := c]))
  }

  predicate SameBodiesBut(g: Game, g': Game, h: Handle) {
    g'.simTime == g.simTime && g'.bodies.Keys == g.bodies.Keys + {h}
    && forall k | k in g.bodies && k != h :: g'.bodies[k] == g.bodies[k]
  }

  /** An organism without an id, or in flight already, is left alone; one that cannot travel is
      blocked for good, one whose serialization threw for the default time; any other is frozen,
      filed under the new id and sent in one frame that names it, the edge and its content. */
  lemma CaptureMeans(w: World, h: Handle, edge: Edge, probe: Probe, newId: MigrationId, messageId: nat, realtime: real)
    requires h in w.game.bodies
    ensures var w' := TryBegin(w, h, edge, probe, newId, messageId, realtime); var e := w.game.bodies[h].id;
      if e == 0 || e in w.exporter.byEntity then w' == w
      else if CannotTravel(probe) then OnlyCooled(w, w', e, Cooldown(true, w.game.simTime, true, edge))
      else if probe.serialization.SerializeThrew? then
        OnlyCooled(w, w', e, Cooldown(false, w.game.simTime + MIGRATION_COOLDOWN_SECONDS, true, edge))
      else
        var frame := OutFrame(messageId, newId, e, edge, probe.serialization.content);
        && w'.sent == w.sent + [MigrateOut(frame)]
        && w'.exporter.inFlight
          == w.exporter.inFlight[newId := InFlight(newId, e, edge, h, frame, realtime, false, false)]
        && w'.exporter.byEntity == w.exporter.byEntity[e := newId]
        && w'.exporter.cooldowns == w.exporter.cooldowns && w'.importer == w.importer
        && SameBodiesBut(w.game, w'.game, h)
        && w'.game.bodies[h] == Body(e, false, false, w.game.bodies[h].destroyed)
        && (Distinct(w.game.tracker) ==> forall k :: k in w'.game.tracker <==> k in w.game.tracker && k != h)
  {
    if Distinct(w.game.tracker) { WithoutMeans(w.game.tracker, h); }
  }

  // ---- timers --------------------------------------------------------------------------

  /** A record is overdue once five seconds have passed since it was last sent. */
  lemma TimeoutsMean(w: World, realtime: real)
    ensures var w' := CheckTimeouts(w, realtime);
      && w'.exporter.inFlight.Keys == w.exporter.inFlight.Keys
      && w'.game == w.game && w'.importer == w.importer && w'.sent == w.sent
      && w'.exporter.byEntity == w.exporter.byEntity && w'.exporter.cooldowns == w.exporter.cooldowns
    ensures var w' := CheckTimeouts(w, realtime);
      forall id | id in w.exporter.inFlight ::
        var r, r' := w.exporter.inFlight[id], w'.exporter.inFlight[id];
        var overdue := !r.timedOutLogged && !r.awaitingReconnect && realtime - r.sentAt >= 5.0;
        r' == r.(timedOutLogged := r.timedOutLogged || overdue, awaitingReconnect := r.awaitingReconnect || overdue)
  {
  }

  /** The MIGRATE_OUT frames of a list that carry this migration id. */
  function OutsOf(sent: seq<Frame>, id: MigrationId): seq<OutFrame> {
    if sent == [] then []
    else
      var f := sent[|sent| - 1];
      OutsOf(sent[..|sent| - 1], id) + if f.MigrateOut? && f.out.migrationId == id then [f.out] else []
  }

  lemma OutsOfOne(sent: seq<Frame>, f: Frame, id: MigrationId)
    ensures OutsOf(sent + [f], id)
         == OutsOf(sent, id) + if f.MigrateOut? && f.out.migrationId == id then [f.out] else []
  {
    assert (sent + [f])[..|sent|] == sent;
  }

  ghost predicate OwnIds(m: map<MigrationId, InFlight>) {
    forall id | id in m :: m[id].frame.migrationId == id
  }

  /** Resent, in some order, is each stored frame once, and no other. */
  ghost predicate ResendsEach(before: map<MigrationId, InFlight>, appended: seq<Frame>) {
    && (forall f | f in appended :: f.MigrateOut?)
    && forall id :: OutsOf(appended, id) == if id in before then [before[id].frame] else []
  }

  /** Each record's timers start again; nothing else about it changes. */
  ghost predicate Restarted(before: map<MigrationId, InFlight>, after: map<MigrationId, InFlight>, realtime: real) {
    && after.Keys == before.Keys
    && forall id | id in before ::
      after[id] == before[id].(sentAt := realtime, awaitingReconnect := false, timedOutLogged := false)
  }

  lemma {:induction false} ReplayedOnce(m: map<MigrationId, InFlight>, order: seq<MigrationId>, id: MigrationId)
    requires OwnIds(m) && (forall k | k in order :: k in m)
    requires forall i, j | 0 <= i < j < |order| :: order[i] != order[j]
    ensures OutsOf(ReplayFrames(m, order), id) == if id in order then [m[id].frame] else []
  {
    if order != [] {
      var n := |order| - 1;
      var last := order[n];
      assert order == order[..n] + [last];
      ReplayedOnce(m, order[..n], id);
      assert ReplayFrames(m, order) == ReplayFrames(m, order[..n]) + [MigrateOut(m[last].frame)];
      OutsOfOne(ReplayFrames(m, order[..n]), MigrateOut(m[last].frame), id);
    }
  }

  lemma ReplayedEach(m: map<MigrationId, InFlight>, order: seq<MigrationId>)
    requires OwnIds(m) && Enumerates(order, m.Keys)
    ensures ResendsEach(m, ReplayFrames(m, order))
  {
    forall id ensures OutsOf(ReplayFrames(m, order), id) == if id in m then [m[id].frame] else [] {
      ReplayedOnce(m, order, id);
    }
  }

  lemma ReplayResends(m: map<MigrationId, InFlight>, order: seq<MigrationId>, sent: seq<Frame>)
    requires OwnIds(m) && Enumerates(order, m.Keys)
    ensures ResendsEach(m, (sent + ReplayFrames(m, order))[|sent|..])
  {
    ReplayedEach(m, order);
    assert (sent + ReplayFrames(m, order))[|sent|..] == ReplayFrames(m, order);
  }

  lemma RestartedIs(before: map<MigrationId, InFlight>, after: map<MigrationId, InFlight>, realtime: real)
    ensures Restarted(before, after, realtime) <==> after == map id | id in before :: Resent(before[id], realtime)
  {
  }

  /** A replay resends every organism in flight exactly once, as it was first sent. */
  lemma ReplayMeans(w: World, order: seq<MigrationId>, realtime: real)
    requires OwnIds(w.exporter.inFlight) && Enumerates(order, w.exporter.inFlight.Keys)
    ensures var w' := ReplayOnReconnect(w, order, realtime);
      && w.sent <= w'.sent && ResendsEach(w.exporter.inFlight, w'.sent[|w.sent|..])
    ensures var w' := ReplayOnReconnect(w, order, realtime);
      && Restarted(w.exporter.inFlight, w'.exporter.inFlight, realtime)
      && w'.exporter.byEntity == w.exporter.byEntity && w'.exporter.cooldowns == w.exporter.cooldowns
      && w'.game == w.game && w'.importer == w.importer
  {
    var m := w.exporter.inFlight;
    ReplayResends(m, order, w.sent);
    RestartedIs(m, map id | id in m :: Resent(m[id], realtime), realtime);
  }

  // ---- what is asked before a capture --------------------------------------------------

  /** An organism under a cooldown is blocked while the cooldown is permanent, while it has to be
      seen clear of an edge and has not been, and until its time; released, it has none. */
  lemma BlockedMeans(x: Exporter, now: real, e: int, clear: bool)
    ensures var (blocked, x') := Unblocked(x, now, e, clear);
      && x'.inFlight == x.inFlight && x'.byEntity == x.byEntity
      && (forall k | k != e :: (k in x'.cooldowns <==> k in x.cooldowns)
                               && (k in x.cooldowns ==> x'.cooldowns[k] == x.cooldowns[k]))
      && (e in x'.cooldowns <==> blocked)
      && (e !in x.cooldowns ==> !blocked)
    ensures e in x.cooldowns ==>
      var (blocked, x') := Unblocked(x, now, e, clear); var c := x.cooldowns[e];
      var unseen := c.requireExit && c.edge != NoEdge && !clear;
      && (blocked <==> c.permanent || unseen || now < c.untilSimTime)
      && (blocked ==> x'.cooldowns[e] == if c.permanent || unseen then c else c.(requireExit := false))
  {
  }

  /** Immune is before the recorded time; afterwards the entry goes. */
  lemma ImmuneMeans(i: Importer, now: real, e: int)
    ensures var (immune, i') := HasImmunity(i, now, e);
      && (immune <==> e in i.immunity && now < i.immunity[e])
      && i' == i.(immunity := if immune then i.immunity else i.immunity - {e})
  {
    if e !in i.immunity { assert i.immunity - {e} == i.immunity; }
  }

  /** The ledger belongs to one session, and starts empty with each. */
  lemma HandshakeMeans(i: Importer, session: string)
    ensures var i' := OnHandshake(i, session);
      && i'.ledgerSession == Some(session) && i'.immunity == i.immunity
      && i'.seen == if i.ledgerSession == Some(session) then i.seen else {}
  {
  }

  // ---- a delivery ----------------------------------------------------------------------

  predicate HasEveryField(d: InData) {
    && d.gameVersion.Some? && d.payload.Some? && d.entryEdge.Some? && d.entryPosition.Some?
    && d.velocity.Some? && d.heading.Some? && d.bounceBack.Some? && d.attempt.Some?
  }

  /** A bibite with every field, an edge letter and a position in [0,1]. */
  predicate WellFormed(d: InData) {
    && d.entityId.Some? && d.kind == Some("bibite") && HasEveryField(d)
    && TryParseEdge(d.entryEdge.value).Some? && 0.0 <= d.entryPosition.value <= 1.0
  }

  predicate AtDeclaredEdge(d: InData, env: InEnv)
    requires WellFormed(d)
  {
    TryParseEdge(d.entryEdge.value).value in env.declared
  }

  /** What it takes to get as far as the dedup keys. */
  predicate Admissible(d: InData, env: InEnv) {
    WellFormed(d) && AtDeclaredEdge(d, env) && d.gameVersion == Some(env.gameVersion) && env.simReady
  }

  /** Handling this delivery sends this one frame. */
  ghost predicate Sends(w: World, d: InData, env: InEnv, f: Frame) {
    HandleIn(w, d, env).sent == w.sent + [f]
  }

  predicate Permanent(code: NackCode) {
    code != EdgeClosed && code != SimNotReady && code != ShuttingDown
  }

  predicate UnknownKind(d: InData) {
    d.entityId.Some? && d.kind.Some? && d.kind.value != "bibite"
  }

  /** A refusal under the delivery's id and its organism (0 if it names none). */
  function Nacked(d: InData, code: NackCode): Frame
    requires d.migrationId.Some?
  {
    InNack(d.migrationId.value, if d.entityId.Some? then d.entityId.value else 0, code, Permanent(code))
  }

  /** The id an arrival is filed under. */
  function KeyOf(d: InData, env: InEnv): int
    requires d.entityId.Some? && env.restore.Restored?
  {
    if env.restore.restoredId != 0 then env.restore.restoredId else d.entityId.value
  }

  lemma SendsOne(w: World, d: InData, env: InEnv, f: Frame, g: Frame)
    requires Sends(w, d, env, f) && Sends(w, d, env, g)
    ensures f == g
  {
    assert (w.sent + [f])[|w.sent|] == f && (w.sent + [g])[|w.sent|] == g;
  }

  /** The first tracked body in use with this id, if there is one and the id is not 0. */
  lemma {:induction false} ScanMeans(g: Game, tracked: seq<Handle>, id: int)
    ensures FirstWithId(g, tracked, id).None? <==> forall h | h in tracked && Usable(g, h) :: g.bodies[h].id != id
    ensures FirstWithId(g, tracked, id).Some? ==>
      exists i ::
        0 <= i < |tracked| && IsFirstWithId(g, tracked, id, i) && FirstWithId(g, tracked, id) == Some(tracked[i])
  {
    if tracked != [] {
      ScanMeans(g, tracked[1..], id);
      assert tracked == [tracked[0]] + tracked[1..];
      if Usable(g, tracked[0]) && g.bodies[tracked[0]].id == id {
        assert IsFirstWithId(g, tracked, id, 0);
      } else if FirstWithId(g, tracked[1..], id).Some? {
        var i :| 0 <= i < |tracked[1..]| && IsFirstWithId(g, tracked[1..], id, i)
                 && FirstWithId(g, tracked[1..], id) == Some(tracked[1..][i]);
        assert IsFirstWithId(g, tracked, id, i + 1);
      }
    }
  }

  ghost predicate IsFirstWithId(g: Game, tracked: seq<Handle>, id: int, i: int) {
    0 <= i < |tracked| && Usable(g, tracked[i]) && g.bodies[tracked[i]].id == id
    && forall j | 0 <= j < i && Usable(g, tracked[j]) :: g.bodies[tracked[j]].id != id
  }

  /** No id in the ledger, no such organism living here, none in flight from here. */
  ghost predicate IsNew(w: World, d: InData)
    requires d.migrationId.Some? && d.entityId.Some?
  {
    var e := d.entityId.value;
    && Fold(d.migrationId.value) !in w.importer.seen && e !in w.exporter.byEntity
    && (e == 0 || forall h | h in w.game.tracker && Usable(w.game, h) :: w.game.bodies[h].id != e)
  }

  predicate Restorable(env: InEnv) {
    env.rewritable && env.restore.Restored?
  }

  /** The gates in front of the dedup keys, told apart by the fields alone. */
  lemma RefusalMeans(d: InData, env: InEnv)
    ensures Refusal(d, env) ==
        if UnknownKind(d) then Some((KindUnsupported, true))
        else if !WellFormed(d) then Some((MalformedMessage, true))
        else if !AtDeclaredEdge(d, env) then Some((EdgeClosed, false))
        else if d.gameVersion != Some(env.gameVersion) then Some((VersionUnsupported, true))
        else if !env.simReady then Some((SimNotReady, false))
        else None
  {
  }

  lemma PastTheGates(w: World, d: InData, env: InEnv)
    requires UsableId(d) && Admissible(d, env)
    ensures var id, e := d.migrationId.value, d.entityId.value;
      && (!IsNew(w, d) ==> Sends(w, d, env, InAck(id, e, true)))
      && (IsNew(w, d) && !Restorable(env) ==> Sends(w, d, env, Nacked(d, DeserializeFailed)))
      && (IsNew(w, d) && Restorable(env) && !env.restore.relinked ==> Sends(w, d, env, Nacked(d, RelinkFailed)))
      && (IsNew(w, d) && Restorable(env) && env.restore.relinked ==>
            Sends(w, d, env, InAck(id, KeyOf(d, env), false)))
  {
    RefusalMeans(d, env);
    ScanMeans(w.game, w.game.tracker, d.entityId.value);
  }

  lemma AtTheGates(w: World, d: InData, env: InEnv)
    requires UsableId(d)
    ensures UnknownKind(d) ==> Sends(w, d, env, Nacked(d, KindUnsupported))
    ensures !UnknownKind(d) && !WellFormed(d) ==>
      Sends(w, d, env, Nacked(d, MalformedMessage))
    ensures WellFormed(d) && !AtDeclaredEdge(d, env) ==> Sends(w, d, env, Nacked(d, EdgeClosed))
    ensures WellFormed(d) && AtDeclaredEdge(d, env) && d.gameVersion != Some(env.gameVersion) ==>
      Sends(w, d, env, Nacked(d, VersionUnsupported))
    ensures WellFormed(d) && AtDeclaredEdge(d, env) && d.gameVersion == Some(env.gameVersion) && !env.simReady ==>
      Sends(w, d, env, Nacked(d, SimNotReady))
  {
    RefusalMeans(d, env);
  }

  /** What is sent, by the fields: the gates in their order, then what lies behind them. */
  lemma TheAnswer(w: World, d: InData, env: InEnv) returns (f: Frame)
    requires UsableId(d)
    ensures forall g :: Sends(w, d, env, g) <==> g == f
    ensures UnknownKind(d) ==> f == Nacked(d, KindUnsupported)
    ensures !UnknownKind(d) && !WellFormed(d) ==> f == Nacked(d, MalformedMessage)
    ensures WellFormed(d) && !AtDeclaredEdge(d, env) ==> f == Nacked(d, EdgeClosed)
    ensures WellFormed(d) && AtDeclaredEdge(d, env) && d.gameVersion != Some(env.gameVersion) ==>
      f == Nacked(d, VersionUnsupported)
    ensures WellFormed(d) && AtDeclaredEdge(d, env) && d.gameVersion == Some(env.gameVersion) && !env.simReady ==>
      f == Nacked(d, SimNotReady)
    ensures Admissible(d, env) && !IsNew(w, d) ==> f == InAck(d.migrationId.value, d.entityId.value, true)
    ensures Admissible(d, env) && IsNew(w, d) && !Restorable(env) ==> f == Nacked(d, DeserializeFailed)
    ensures Admissible(d, env) && IsNew(w, d) && Restorable(env) && !env.restore.relinked ==>
      f == Nacked(d, RelinkFailed)
    ensures Admissible(d, env) && IsNew(w, d) && Restorable(env) && env.restore.relinked ==>
      f == InAck(d.migrationId.value, KeyOf(d, env), false)
  {
    AtTheGates(w, d, env);
    if Admissible(d, env) { PastTheGates(w, d, env); }
    assert exists g :: Sends(w, d, env, g);
    f :| Sends(w, d, env, f);
    forall g | Sends(w, d, env, g) ensures g == f { SendsOne(w, d, env, f, g); }
  }

  /** Which delivery is refused at which gate, and how: a kind that is not known, then what is not
      well-formed, an edge this world does not declare, another game version, a world that is not
      ready. The first gate that fails decides, and each code comes with its own class. */
  lemma RefusedIff(w: World, d: InData, env: InEnv)
    requires UsableId(d)
    ensures Sends(w, d, env, Nacked(d, KindUnsupported)) <==> UnknownKind(d)
    ensures Sends(w, d, env, Nacked(d, MalformedMessage)) <==> !UnknownKind(d) && !WellFormed(d)
    ensures Sends(w, d, env, Nacked(d, EdgeClosed)) <==> WellFormed(d) && !AtDeclaredEdge(d, env)
    ensures Sends(w, d, env, Nacked(d, VersionUnsupported))
       <==> WellFormed(d) && AtDeclaredEdge(d, env) && d.gameVersion != Some(env.gameVersion)
    ensures Sends(w, d, env, Nacked(d, SimNotReady))
       <==> WellFormed(d) && AtDeclaredEdge(d, env) && d.gameVersion == Some(env.gameVersion) && !env.simReady
    ensures forall code, permanent, e | Sends(w, d, env, InNack(d.migrationId.value, e, code, permanent)) ::
      InNack(d.migrationId.value, e, code, permanent) == Nacked(d, code)
  {
    var f := TheAnswer(w, d, env);
  }

  /** What becomes of a delivery that gets past the gates: a copy of what is here already, a
      restore that yields nothing, a relink that fails, or an organism. */
  lemma AdmittedIff(w: World, d: InData, env: InEnv)
    requires UsableId(d)
    ensures (exists e :: Sends(w, d, env, InAck(d.migrationId.value, e, true))) <==> Admissible(d, env) && !IsNew(w, d)
    ensures Sends(w, d, env, Nacked(d, DeserializeFailed)) <==> Admissible(d, env) && IsNew(w, d) && !Restorable(env)
    ensures Sends(w, d, env, Nacked(d, RelinkFailed))
       <==> Admissible(d, env) && IsNew(w, d) && Restorable(env) && !env.restore.relinked
    ensures (exists e :: Sends(w, d, env, InAck(d.migrationId.value, e, false)))
       <==> Admissible(d, env) && IsNew(w, d) && Restorable(env) && env.restore.relinked
    ensures forall e, duplicate | Sends(w, d, env, InAck(d.migrationId.value, e, duplicate)) ::
      e == if duplicate then d.entityId.value else KeyOf(d, env)
  {
    var f := TheAnswer(w, d, env);
  }

  // ---- what a delivery changes ---------------------------------------------------------

  /** A refusal changes nothing but what was sent; a failed relink leaves its body destroyed. */
  lemma RefusalKeeps(w: World, d: InData, env: InEnv)
    requires UsableId(d) && !(Admissible(d, env) && (!IsNew(w, d) || (Restorable(env) && env.restore.relinked)))
    ensures var w' := HandleIn(w, d, env);
      w'.exporter == w.exporter && w'.importer == w.importer
      && if Admissible(d, env) && Restorable(env)
         then SameBodiesBut(w.game, w'.game, env.restore.handle) && !Usable(w'.game, env.restore.handle)
              && (env.restore.handle !in w.game.tracker ==> w'.game.tracker == w.game.tracker)
         else w'.game == w.game
  {
    RefusalMeans(d, env);
    if Admissible(d, env) {
      ScanMeans(w.game, w.game.tracker, d.entityId.value);
      if Restorable(env) && env.restore.handle !in w.game.tracker {
        RemoveLast(w.game.tracker, env.restore.handle);
      }
    }
  }

  lemma RemoveLast(s: seq<Handle>, h: Handle)
    requires h !in s
    ensures Without(s + [h], h) == s
  {
    assert (s + [h])[..|s|] == s;
    WithoutAt(s + [h], |s|, h);
    assert (s + [h])[..|s|] + (s + [h])[|s| + 1..] == s;
  }

  /** A copy is remembered under its id, and nothing else happens. */
  lemma CopyIsRemembered(w: World, d: InData, env: InEnv)
    requires UsableId(d) && Admissible(d, env) && !IsNew(w, d)
    ensures var w' := HandleIn(w, d, env);
      && w'.game == w.game && w'.exporter == w.exporter
      && w'.importer == w.importer.(seen := w.importer.seen + {Fold(d.migrationId.value)})
  {
    RefusalMeans(d, env);
    ScanMeans(w.game, w.game.tracker, d.entityId.value);
    if Fold(d.migrationId.value) in w.importer.seen {
      assert w.importer.seen + {Fold(d.migrationId.value)} == w.importer.seen;
    }
  }

  /** An organism that stands up is live, tracked and under its id; its migration is remembered,
      it is immune for five seconds, and no cooldown of an earlier life is left. */
  lemma ArrivalMeans(w: World, d: InData, env: InEnv)
    requires UsableId(d) && Admissible(d, env) && IsNew(w, d) && Restorable(env) && env.restore.relinked
    ensures var w' := HandleIn(w, d, env); var h, key := env.restore.handle, KeyOf(d, env);
      && SameBodiesBut(w.game, w'.game, h) && w'.game.bodies[h] == Body(env.restore.restoredId, true, true, false)
      && w'.game.tracker == w.game.tracker + [h]
      && w'.importer.seen == w.importer.seen + {Fold(d.migrationId.value)}
      && w'.importer.ledgerSession == w.importer.ledgerSession
      && w'.importer.immunity == w.importer.immunity[key := w.game.simTime + 5.0]
      && w'.exporter.cooldowns == w.exporter.cooldowns - {key}
      && w'.exporter.inFlight == w.exporter.inFlight && w'.exporter.byEntity == w.exporter.byEntity
  {
    RefusalMeans(d, env);
    ScanMeans(w.game, w.game.tracker, d.entityId.value);
  }

  /** Without a usable id a delivery is dropped: there is nothing to answer under. */
  lemma NoIdNoAnswer(w: World, d: InData, env: InEnv)
    requires d.migrationId.None? || d.migrationId.value == ""
    ensures HandleIn(w, d, env) == w
  {
  }

  /** A delivery refused without a look at the world, because it is paused or going away. */
  lemma UnhandledMeans(w: World, d: InData, code: NackCode)
    requires code == SimNotReady || code == ShuttingDown
    ensures NackUnhandled(w, d, code)
         == if d.migrationId.None? || d.migrationId.value == "" then w else w.(sent := w.sent + [Nacked(d, code)])
  {
  }
}
