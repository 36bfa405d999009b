/** One world of the mod as a value: the game's bodies and tracker, the exporter's and the
    importer's tables, and the frames handed to the transport. Every operation of the custody
    chain is a function on that value; Migration.dfy proves the in-place code against these
    functions, and the other custody modules prove what the functions keep. */
module Worlds {
  import opened ContractA
  import opened Lists

  type Handle = nat
  type MigrationId = string

  // ---- the game ------------------------------------------------------------------------

  /** An organism, reached through a handle (the object reference). `destroyed` is also what
      makes the engine's own null test come out true. */
  datatype Body = Body(id: int, enabled: bool, simulated: bool, destroyed: bool)

  datatype Game = Game(bodies: map<Handle, Body>, tracker: seq<Handle>, simTime: real)

  predicate Usable(g: Game, h: Handle) {
    h in g.bodies && !g.bodies[h].destroyed
  }

  /** Alive and not frozen: a copy of the organism that the simulation is running. */
  predicate Active(g: Game, h: Handle) {
    Usable(g, h) && g.bodies[h].enabled
  }

  /** Inert but still there. */
  predicate Frozen(g: Game, h: Handle) {
    Usable(g, h) && !g.bodies[h].enabled
  }

  function Untrack(g: Game, h: Handle): Game {
    g.(tracker := Without(g.tracker, h))
  }

  function Track(g: Game, h: Handle): Game {
    if h in g.tracker then g else g.(tracker := g.tracker + [h])
  }

  function FirstWithId(g: Game, tracked: seq<Handle>, id: int): Option<Handle> {
    if tracked == [] then None
    else if Usable(g, tracked[0]) && g.bodies[tracked[0]].id == id then Some(tracked[0])
    else FirstWithId(g, tracked[1..], id)
  }

  function FindBodyById(g: Game, id: int): Option<Handle> {
    if id == 0 then None else FirstWithId(g, g.tracker, id)
  }

  function DestroyCleanly(g: Game, h: Handle): Game
    requires h in g.bodies
  {
    var u := Untrack(g, h);
    u.(bodies := u.bodies[h := u.bodies[h].(destroyed := true)])
  }

  function Freeze(g: Game, h: Handle): Game
    requires h in g.bodies
  {
    var u := Untrack(g, h);
    u.(bodies := u.bodies[h := u.bodies[h].(enabled := false, simulated := false)])
  }

  function Revive(g: Game, h: Handle): Game {
    if !Usable(g, h) then g
    else Track(g.(bodies := g.bodies[h := g.bodies[h].(enabled := true, simulated := true)]), h)
  }

  // ---- frames --------------------------------------------------------------------------

  /** One MIGRATE_OUT, envelope included: a resend that minted a new `messageId` or re-read the
      organism would be a different frame. `content` stands for the payload and every other
      field of the data object. */
  datatype OutFrame = OutFrame(messageId: nat, migrationId: MigrationId, entityId: int, exitEdge: Edge, content: string)

  datatype NackCode =
    | MalformedMessage | KindUnsupported | EdgeClosed | VersionUnsupported | SimNotReady
    | DeserializeFailed | RelinkFailed | ShuttingDown

  datatype Frame =
    | ConfigUpdate(session: string)
    | MigrateOut(out: OutFrame)
    | InAck(migrationId: MigrationId, entityId: int, duplicate: bool)
    | InNack(migrationId: MigrationId, entityId: int, code: NackCode, permanent: bool)

  /** The data object of a MIGRATE_IN; `None` is "missing or of the wrong JSON type". */
  datatype InData = InData(
    migrationId: Option<MigrationId>, entityId: Option<int>, kind: Option<string>,
    gameVersion: Option<string>, payload: Option<string>, entryEdge: Option<string>, entryPosition: Option<real>,
    velocity: Option<(real, real)>, heading: Option<real>, bounceBack: Option<bool>, attempt: Option<int>)

  /** The NACK codes of a MIGRATE_OUT_NACK the mod reacts to; any other text is `OtherCode`. */
  datatype OutNackCode = OutEdgeClosed | OutSimSizeMismatch | OtherCode(text: string)

  // ---- tables --------------------------------------------------------------------------

  datatype InFlight = InFlight(
    migrationId: MigrationId, entityId: int, exitEdge: Edge, body: Handle, frame: OutFrame,
    sentAt: real, awaitingReconnect: bool, timedOutLogged: bool)

  datatype Cooldown = Cooldown(permanent: bool, untilSimTime: real, requireExit: bool, edge: Edge)

  datatype Exporter = Exporter(
    inFlight: map<MigrationId, InFlight>, byEntity: map<int, MigrationId>, cooldowns: map<int, Cooldown>)

  /** `seen` is a case-insensitive set: it holds the folded form of each id. */
  datatype Importer = Importer(seen: set<string>, immunity: map<int, real>, ledgerSession: Option<string>)

  datatype World = World(game: Game, exporter: Exporter, importer: Importer, sent: seq<Frame>)

  predicate IsInFlight(w: World, entityId: int) {
    entityId in w.exporter.byEntity
  }

  // ---- exporter ------------------------------------------------------------------------

  function Block(x: Exporter, now: real, entityId: int, edge: Edge, permanent: bool, seconds: real): Exporter {
    x.(cooldowns := x.cooldowns[entityId := Cooldown(permanent, now + seconds, true, edge)])
  }

  /** `clear` says whether the organism is clear of the strip the cooldown names. */
  function Unblocked(x: Exporter, now: real, entityId: int, clear: bool): (bool, Exporter) {
    if entityId !in x.cooldowns then (false, x)
    else
      var c := x.cooldowns[entityId];
      if c.permanent then (true, x)
      else if c.requireExit && c.edge != NoEdge && !clear then (true, x)
      else
        var c' := c.(requireExit := false);
        if now < c.untilSimTime then (true, x.(cooldowns := x.cooldowns[entityId := c']))
        else (false, x.(cooldowns := x.cooldowns - {entityId}))
  }

  /** What the game answers while the exporter prepares a frame. */
  datatype Serialization = Unserializable | SerializeThrew | Serialized(content: string, bytes: nat)

  datatype Probe = Probe(finite: bool, serialization: Serialization)

  predicate Begins(w: World, h: Handle, probe: Probe)
    requires h in w.game.bodies
  {
    && w.game.bodies[h].id != 0
    && w.game.bodies[h].id !in w.exporter.byEntity
    && probe.finite
    && probe.serialization.Serialized?
    && probe.serialization.bytes <= MAX_PAYLOAD_BYTES
  }

  function TryBegin(w: World, h: Handle, edge: Edge, probe: Probe, newId: MigrationId, messageId: nat,
        realtime: real): World
    requires h in w.game.bodies
  {
    var e := w.game.bodies[h].id;
    if e == 0 || e in w.exporter.byEntity then w
    else if !probe.finite || probe.serialization.Unserializable? then
      w.(exporter := Block(w.exporter, w.game.simTime, e, edge, true, 0.0))
    else if probe.serialization.SerializeThrew? then
      w.(exporter := Block(w.exporter, w.game.simTime, e, edge, false, MIGRATION_COOLDOWN_SECONDS))
    else if probe.serialization.bytes > MAX_PAYLOAD_BYTES then
      w.(exporter := Block(w.exporter, w.game.simTime, e, edge, true, 0.0))
    else
      var frame := OutFrame(messageId, newId, e, edge, probe.serialization.content);
      var record := InFlight(newId, e, edge, h, frame, realtime, false, false);
      w.(game := Freeze(w.game, h),
         exporter := w.exporter.(inFlight := w.exporter.inFlight[newId := record],
                                 byEntity := w.exporter.byEntity[e := newId]),
         sent := w.sent + [MigrateOut(frame)])
  }

  function Resent(r: InFlight, realtime: real): InFlight {
    r.(sentAt := realtime, awaitingReconnect := false, timedOutLogged := false)
  }

  function TimedOut(r: InFlight, realtime: real): InFlight {
    if r.timedOutLogged || r.awaitingReconnect || (realtime - r.sentAt) * 1000.0 < MIGRATE_OUT_TIMEOUT_MS then r
    else r.(timedOutLogged := true, awaitingReconnect := true)
  }

  function CheckTimeouts(w: World, realtime: real): World {
    var m := w.exporter.inFlight;
    w.(exporter := w.exporter.(inFlight := map id | id in m :: TimedOut(m[id], realtime)))
  }

  /** The frames a replay puts on the wire, for one order of walking the in-flight table. */
  function ReplayFrames(m: map<MigrationId, InFlight>, order: seq<MigrationId>): (r: seq<Frame>)
    requires forall id | id in order :: id in m
    ensures |r| == |order|
    ensures forall i | 0 <= i < |r| :: r[i] == MigrateOut(m[order[i]].frame)
  {
    seq(|order|, i requires 0 <= i < |order| => assert order[i] in order; MigrateOut(m[order[i]].frame))
  }

  /** `order` lists every key exactly once. */
  ghost predicate Enumerates(order: seq<MigrationId>, keys: set<MigrationId>) {
    && (forall id :: id in order <==> id in keys)
    && (forall i, j | 0 <= i < j < |order| :: order[i] != order[j])
  }

  function ReplayOnReconnect(w: World, order: seq<MigrationId>, realtime: real): World
    requires forall id | id in order :: id in w.exporter.inFlight
  {
    var m := w.exporter.inFlight;
    w.(exporter := w.exporter.(inFlight := map id | id in m :: Resent(m[id], realtime)),
       sent := w.sent + ReplayFrames(m, order))
  }

  /** The organism has left: its immunity window and its cooldown go with it. */
  function NoteDeparture(w: World, entityId: int): World {
    w.(importer := w.importer.(immunity := w.importer.immunity - {entityId}),
       exporter := w.exporter.(cooldowns := w.exporter.cooldowns - {entityId}))
  }

  function DestroyForCustody(w: World, h: Handle, entityId: int): World {
    if !Usable(w.game, h) then w
    else NoteDeparture(w.(game := DestroyCleanly(w.game, h)), entityId)
  }

  /** Drop one in-flight record. */
  function Settle(x: Exporter, id: MigrationId): Exporter
    requires id in x.inFlight
  {
    x.(inFlight := x.inFlight - {id}, byEntity := x.byEntity - {x.inFlight[id].entityId})
  }

  function HandleAck(w: World, id: MigrationId, entityId: int): World {
    if id in w.exporter.inFlight then
      var r := w.exporter.inFlight[id];
      var x := Settle(w.exporter, id);
      DestroyForCustody(w.(exporter := x.(cooldowns := x.cooldowns - {r.entityId})), r.body, r.entityId)
    else
      match FindBodyById(w.game, entityId)
      case Some(h) =>
        DestroyForCustody(w.(exporter := w.exporter.(cooldowns := w.exporter.cooldowns - {entityId})), h, entityId)
      case None => w
  }

  function NackSeconds(retryAfterMs: Option<int>): real {
    if retryAfterMs.Some? && retryAfterMs.value > 0
    then Max(MIGRATION_COOLDOWN_SECONDS, retryAfterMs.value as real / 1000.0)
    else MIGRATION_COOLDOWN_SECONDS
  }

  function HandleNack(w: World, id: MigrationId, permanent: bool, retryAfterMs: Option<int>): World {
    if id !in w.exporter.inFlight then w
    else
      var r := w.exporter.inFlight[id];
      w.(game := Revive(w.game, r.body),
         exporter :=
           Block(Settle(w.exporter, id), w.game.simTime, r.entityId, r.exitEdge, permanent, NackSeconds(retryAfterMs)))
  }

  /** The edge, if any, that this NACK closes until the next EDGE_STATUS: the one the organism
      left by. */
  function EdgeToClose(w: World, id: MigrationId, code: OutNackCode): Edge {
    if id in w.exporter.inFlight && (code.OutEdgeClosed? || code.OutSimSizeMismatch?)
    then w.exporter.inFlight[id].exitEdge else NoEdge
  }

  // ---- importer ------------------------------------------------------------------------

  function OnHandshake(i: Importer, session: string): Importer {
    if i.ledgerSession == Some(session) then i
    else i.(seen := {}, ledgerSession := Some(session))
  }

  function HasImmunity(i: Importer, now: real, entityId: int): (bool, Importer) {
    if entityId !in i.immunity then (false, i)
    else if now < i.immunity[entityId] then (true, i)
    else (false, i.(immunity := i.immunity - {entityId}))
  }

  /** What the game does with a restore: nothing comes back, an object without a body comes
      back, or a body stands up under `restoredId` and the link repair succeeds or throws. */
  datatype Restore = NothingRestored | NoBody | Restored(handle: Handle, restoredId: int, relinked: bool)

  datatype InEnv = InEnv(declared: set<Edge>, gameVersion: string, simReady: bool, rewritable: bool, restore: Restore)

  predicate UsableId(data: InData) {
    data.migrationId.Some? && data.migrationId.value != ""
  }

  predicate RequiredFields(data: InData) {
    && data.gameVersion.Some? && data.payload.Some? && data.entryEdge.Some? && data.entryPosition.Some?
    && data.velocity.Some? && data.heading.Some? && data.bounceBack.Some? && data.attempt.Some?
  }

  /** The gates in front of the dedup ledger, in the code's order: the refusal, if any. */
  function Refusal(data: InData, env: InEnv): Option<(NackCode, bool)> {
    if data.entityId.None? || data.kind.None? then Some((MalformedMessage, true))
    else if data.kind.value != "bibite" then Some((KindUnsupported, true))
    else if !RequiredFields(data) then Some((MalformedMessage, true))
    else
      var edge := TryParseEdge(data.entryEdge.value);
      if edge.None? then Some((MalformedMessage, true))
      else if data.entryPosition.value < 0.0 || data.entryPosition.value > 1.0 then Some((MalformedMessage, true))
      else if edge.value !in env.declared then Some((EdgeClosed, false))
      else if data.gameVersion.value != env.gameVersion then Some((VersionUnsupported, true))
      else if !env.simReady then Some((SimNotReady, false))
      else None
  }

  function EntityOf(data: InData): int {
    if data.entityId.Some? then data.entityId.value else 0
  }

  function Send(w: World, frame: Frame): World {
    w.(sent := w.sent + [frame])
  }

  function Remember(w: World, id: MigrationId): World {
    w.(importer := w.importer.(seen := w.importer.seen + {Fold(id)}))
  }

  /** The game registers a restored body with its tracker. */
  function Stand(g: Game, h: Handle, id: int): Game {
    g.(bodies := g.bodies[h := Body(id, true, true, false)], tracker := g.tracker + [h])
  }

  /** An arrival starts a new life here: no old cooldown, a fresh immunity window. */
  function NoteArrival(w: World, entityId: int): World {
    w.(importer := w.importer.(immunity := w.importer.immunity[entityId := w.game.simTime + ENTRY_IMMUNITY_SECONDS]),
       exporter := w.exporter.(cooldowns := w.exporter.cooldowns - {entityId}))
  }

  function Admit(w: World, id: MigrationId, e: int, env: InEnv): World {
    if !env.rewritable then Send(w, InNack(id, e, DeserializeFailed, true))
    else
      match env.restore
      case NothingRestored => Send(w, InNack(id, e, DeserializeFailed, true))
      case NoBody => Send(w, InNack(id, e, DeserializeFailed, true))
      case Restored(h, restoredId, relinked) =>
        var stood := w.(game := Stand(w.game, h, restoredId));
        if !relinked then
          Send(stood.(game := DestroyCleanly(stood.game, h)), InNack(id, e, RelinkFailed, true))
        else
          var key := if restoredId != 0 then restoredId else e;
          Send(NoteArrival(Remember(stood, id), key), InAck(id, key, false))
  }

  function HandleIn(w: World, data: InData, env: InEnv): World {
    if !UsableId(data) then w
    else
      var id, e := data.migrationId.value, EntityOf(data);
      match Refusal(data, env)
      case Some((code, permanent)) => Send(w, InNack(id, e, code, permanent))
      case None =>
        if Fold(id) in w.importer.seen then Send(w, InAck(id, e, true))
        else if FindBodyById(w.game, e).Some? || IsInFlight(w, e) then Send(Remember(w, id), InAck(id, e, true))
        else Admit(w, id, e, env)
  }

  /** Did this delivery leave a body standing? */
  predicate Stood(w: World, data: InData, env: InEnv) {
    env.restore.Restored? && env.restore.relinked && HandleIn(w, data, env).game != w.game
  }

  /** NackNotReady and NackShuttingDown: an answer without a look at the world. */
  function NackUnhandled(w: World, data: InData, code: NackCode): World {
    if !UsableId(data) then w else Send(w, InNack(data.migrationId.value, EntityOf(data), code, false))
  }
}
