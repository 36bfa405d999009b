/** The custody code in the form the mod has it: objects whose dictionaries and flags each
    handler updates in place. Every method is proved equal to its function in Worlds.dfy. */
module Migration {
  import opened ContractA
  import opened Lists
  import opened Worlds
  import opened OperationLaws

  /** The game's side: the bodies, BibiteTracker.bibites and TimeKeeper.simulatedTime. */
  class GameBridge {
    var bodies: map<Handle, Body>
    var tracker: seq<Handle>
    var simTime: real

    constructor (bodies: map<Handle, Body>, tracker: seq<Handle>)
      ensures View() == Game(bodies, tracker, 0.0)
    {
      this.bodies, this.tracker, this.simTime := bodies, tracker, 0.0;
    }

    ghost function View(): Game
      reads this
    {
      Game(bodies, tracker, simTime)
    }

    method IsUsable(h: Handle) returns (usable: bool)
      ensures usable == Usable(View(), h)
    {
      usable := h in bodies && !bodies[h].destroyed;
    }

    method Find(id: int) returns (found: Option<Handle>)
      ensures found == FindBodyById(View(), id)
    {
      if id == 0 {
        return None;
      }
      var i := 0;
      while i < |tracker|
        invariant 0 <= i <= |tracker|
        invariant FirstWithId(View(), tracker[i..], id) == FirstWithId(View(), tracker, id)
      {
        var h := tracker[i];
        var usable := IsUsable(h);
        if usable && bodies[h].id == id {
          return Some(h);
        }
        i := i + 1;
      }
      return None;
    }

    method RemoveFromTracker(h: Handle) returns (delisted: bool)
      modifies this`tracker
      ensures View() == Untrack(old(View()), h)
      ensures delisted == (h in old(tracker))
    {
      var i := 0;
      while i < |tracker|
        invariant 0 <= i <= |tracker| && tracker == old(tracker)
        invariant h !in tracker[..i]
      {
        if tracker[i] == h {
          WithoutAt(tracker, i, h);
          tracker := tracker[..i] + tracker[i + 1..];
          return true;
        }
        i := i + 1;
      }
      WithoutAbsent(tracker, h);
      return false;
    }

    method Destroy(h: Handle) returns (delisted: bool)
      requires h in bodies
      modifies this
      ensures View() == DestroyCleanly(old(View()), h)
    {
      delisted := RemoveFromTracker(h);
      bodies := bodies[h := bodies[h].(destroyed := true)];
    }

    method FreezeBody(h: Handle)
      requires h in bodies
      modifies this
      ensures View() == Freeze(old(View()), h)
    {
      var _ := RemoveFromTracker(h);
      bodies := bodies[h := bodies[h].(enabled := false)];
      bodies := bodies[h := bodies[h].(simulated := false)];
    }

    method ReviveBody(h: Handle) returns (revived: bool)
      modifies this
      ensures View() == Revive(old(View()), h)
      ensures revived == Usable(old(View()), h)
    {
      revived := IsUsable(h);
      if !revived {
        return;
      }
      bodies := bodies[h := bodies[h].(simulated := true)];
      bodies := bodies[h := bodies[h].(enabled := true)];
      if h !in tracker {
        tracker := tracker + [h];
      }
    }

    /** The game's own restore puts the body in its tracker. */
    method StandBody(h: Handle, id: int)
      modifies this
      ensures View() == Stand(old(View()), h, id)
    {
      bodies := bodies[h := Body(id, true, true, false)];
      tracker := tracker + [h];
    }
  }

  /** `client.SendFrame`: everything handed to the transport, in order. */
  class Outbox {
    var sent: seq<Frame>

    constructor ()
      ensures sent == []
    {
      sent := [];
    }

    method SendFrame(frame: Frame)
      modifies this
      ensures sent == old(sent) + [frame]
    {
      sent := sent + [frame];
    }
  }

  ghost function WorldOf(game: GameBridge, exporter: MigrationExporter, importer: MigrationImporter,
        outbox: Outbox): World
    reads game, exporter, importer, outbox
  {
    World(game.View(), exporter.View(), importer.View(), outbox.sent)
  }

  lemma ReplayOneMore(m: map<MigrationId, InFlight>, order: seq<MigrationId>, id: MigrationId)
    requires id in m && forall k | k in order :: k in m
    ensures forall k | k in order + [id] :: k in m
    ensures ReplayFrames(m, order + [id]) == ReplayFrames(m, order) + [MigrateOut(m[id].frame)]
  {
  }

  lemma OneMoreListed(order: seq<MigrationId>, keys: set<MigrationId>, id: MigrationId)
    requires Enumerates(order, keys) && id !in keys
    ensures Enumerates(order + [id], keys + {id})
  {
  }

  class MigrationExporter {
    var inFlight: map<MigrationId, InFlight>
    var byEntity: map<int, MigrationId>
    var cooldowns: map<int, Cooldown>

    constructor ()
      ensures View() == Exporter(map[], map[], map[])
    {
      inFlight, byEntity, cooldowns := map[], map[], map[];
    }

    ghost function View(): Exporter
      reads this
    {
      Exporter(inFlight, byEntity, cooldowns)
    }

    method Clear()
      modifies this
      ensures View() == Exporter(map[], map[], map[])
    {
      inFlight := map[];
      byEntity := map[];
      cooldowns := map[];
    }

    method BlockEntity(now: real, entityId: int, edge: Edge, permanent: bool, seconds: real)
      modifies this`cooldowns
      ensures View() == Block(old(View()), now, entityId, edge, permanent, seconds)
    {
      cooldowns := cooldowns[entityId := Cooldown(permanent, now + seconds, true, edge)];
    }

    method IsBlocked(now: real, entityId: int, clear: bool) returns (blocked: bool)
      modifies this`cooldowns
      ensures (blocked, View()) == Unblocked(old(View()), now, entityId, clear)
    {
      if entityId !in cooldowns {
        return false;
      }
      var cooldown := cooldowns[entityId];
      if cooldown.permanent {
        return true;
      }
      if cooldown.requireExit {
        if cooldown.edge != NoEdge && !clear {
          return true;
        }
        cooldown := cooldown.(requireExit := false);
        cooldowns := cooldowns[entityId := cooldown];
      }
      if now < cooldown.untilSimTime {
        assert cooldowns == old(cooldowns)[entityId := cooldown];
        return true;
      }
      cooldowns := cooldowns - {entityId};
      assert cooldowns == old(cooldowns) - {entityId};
      return false;
    }

    method Forget(entityId: int)
      modifies this`cooldowns
      ensures cooldowns == old(cooldowns) - {entityId}
    {
      cooldowns := cooldowns - {entityId};
    }

    method Begin(game: GameBridge, importer: MigrationImporter, outbox: Outbox,
                 h: Handle, edge: Edge, probe: Probe, newId: MigrationId, messageId: nat, realtime: real)
      returns (begun: bool)
      requires h in game.bodies
      modifies this, game, outbox
      ensures WorldOf(game, this, importer, outbox)
           == TryBegin(old(WorldOf(game, this, importer, outbox)), h, edge, probe, newId, messageId, realtime)
      ensures begun == Begins(old(WorldOf(game, this, importer, outbox)), h, probe)
    {
      var entityId := game.bodies[h].id;
      if entityId == 0 {
        return false;
      }
      if entityId in byEntity {
        return false;
      }
      if !probe.finite {
        BlockEntity(game.simTime, entityId, edge, true, 0.0);
        return false;
      }
      match probe.serialization {
        case Unserializable =>
          BlockEntity(game.simTime, entityId, edge, true, 0.0);
          return false;
        case SerializeThrew =>
          BlockEntity(game.simTime, entityId, edge, false, MIGRATION_COOLDOWN_SECONDS);
          return false;
        case Serialized(content, bytes) =>
          if bytes > MAX_PAYLOAD_BYTES {
            BlockEntity(game.simTime, entityId, edge, true, 0.0);
            return false;
          }
          var frame := OutFrame(messageId, newId, entityId, edge, content);
          game.FreezeBody(h);
          inFlight := inFlight[newId := InFlight(newId, entityId, edge, h, frame, realtime, false, false)];
          byEntity := byEntity[entityId := newId];
          outbox.SendFrame(MigrateOut(frame));
          return true;
      }
    }

    method Resend(outbox: Outbox, id: MigrationId, realtime: real)
      requires id in inFlight
      modifies this`inFlight, outbox
      ensures inFlight == old(inFlight)[id := Resent(old(inFlight)[id], realtime)]
      ensures outbox.sent == old(outbox.sent) + [MigrateOut(old(inFlight)[id].frame)]
    {
      var record := inFlight[id].(sentAt := realtime).(awaitingReconnect := false).(timedOutLogged := false);
      inFlight := inFlight[id := record];
      outbox.SendFrame(MigrateOut(record.frame));
    }

    /** `order` is the order in which the dictionary was walked. */
    method ResendAll(outbox: Outbox, realtime: real) returns (ghost order: seq<MigrationId>)
      modifies this`inFlight, outbox
      ensures Enumerates(order, old(inFlight).Keys) && Restarted(old(inFlight), inFlight, realtime)
      ensures outbox.sent == old(outbox.sent) + ReplayFrames(old(inFlight), order)
    {
      ghost var was := inFlight;
      order := [];
      var left := inFlight.Keys;
      while left != {}
        invariant left <= inFlight.Keys == was.Keys
        invariant Enumerates(order, was.Keys - left)
        invariant forall id | id in was :: inFlight[id] == if id in left then was[id] else Resent(was[id], realtime)
        invariant outbox.sent == old(outbox.sent) + ReplayFrames(was, order)
        decreases left
      {
        var id :| id in left;
        Resend(outbox, id, realtime);
        ReplayOneMore(was, order, id);
        OneMoreListed(order, was.Keys - left, id);
        assert was.Keys - (left - {id}) == was.Keys - left + {id};
        order := order + [id];
        left := left - {id};
      }
    }

    /** Every record in flight is resent once, as it was first sent, and its timers start again. */
    method Replay(game: GameBridge, importer: MigrationImporter, outbox: Outbox, realtime: real)
      returns (ghost order: seq<MigrationId>)
      modifies this`inFlight, outbox
      ensures Enumerates(order, old(inFlight).Keys)
      ensures Restarted(old(inFlight), inFlight, realtime) && old(outbox.sent) <= outbox.sent
      ensures OwnIds(old(inFlight)) ==> ResendsEach(old(inFlight), outbox.sent[|old(outbox.sent)|..])
      ensures WorldOf(game, this, importer, outbox)
           == ReplayOnReconnect(old(WorldOf(game, this, importer, outbox)), order, realtime)
    {
      ghost var was := inFlight;
      order := ResendAll(outbox, realtime);
      RestartedIs(was, inFlight, realtime);
      if OwnIds(was) { ReplayResends(was, order, old(outbox.sent)); }
    }

    method Timeouts(game: GameBridge, importer: MigrationImporter, outbox: Outbox, realtime: real)
      modifies this`inFlight
      ensures WorldOf(game, this, importer, outbox)
        == CheckTimeouts(old(WorldOf(game, this, importer, outbox)), realtime)
    {
      var left := inFlight.Keys;
      while left != {}
        invariant left <= inFlight.Keys == old(inFlight).Keys
        invariant forall id | id in inFlight ::
          inFlight[id] == if id in left then old(inFlight)[id] else TimedOut(old(inFlight)[id], realtime)
        decreases left
      {
        var id :| id in left;
        left := left - {id};
        var record := inFlight[id];
        if record.timedOutLogged || record.awaitingReconnect {
          continue;
        }
        if (realtime - record.sentAt) * 1000.0 < MIGRATE_OUT_TIMEOUT_MS {
          continue;
        }
        inFlight := inFlight[id := record.(timedOutLogged := true).(awaitingReconnect := true)];
      }
    }

    method DestroyDeparted(game: GameBridge, importer: MigrationImporter, outbox: Outbox, h: Handle, entityId: int)
      modifies this`cooldowns, game, importer`immunityUntilSimTime
      ensures WorldOf(game, this, importer, outbox)
        == DestroyForCustody(old(WorldOf(game, this, importer, outbox)), h, entityId)
    {
      var usable := game.IsUsable(h);
      if !usable {
        return;
      }
      var _ := game.Destroy(h);
      importer.Forget(entityId);
      Forget(entityId);
    }

    method Ack(game: GameBridge, importer: MigrationImporter, outbox: Outbox, migrationId: MigrationId, entityId: int)
      modifies this, game, importer`immunityUntilSimTime
      ensures WorldOf(game, this, importer, outbox)
        == HandleAck(old(WorldOf(game, this, importer, outbox)), migrationId, entityId)
    {
      if migrationId in inFlight {
        var record := inFlight[migrationId];
        inFlight := inFlight - {migrationId};
        byEntity := byEntity - {record.entityId};
        cooldowns := cooldowns - {record.entityId};
        DestroyDeparted(game, importer, outbox, record.body, record.entityId);
        return;
      }
      var found := game.Find(entityId);
      if found.Some? {
        cooldowns := cooldowns - {entityId};
        DestroyDeparted(game, importer, outbox, found.value, entityId);
      }
    }

    method Nack(game: GameBridge, importer: MigrationImporter, outbox: Outbox,
                migrationId: MigrationId, code: OutNackCode, permanent: bool, retryAfterMs: Option<int>)
      returns (closed: Edge)
      modifies this, game
      ensures WorldOf(game, this, importer, outbox)
           == HandleNack(old(WorldOf(game, this, importer, outbox)), migrationId, permanent, retryAfterMs)
      ensures closed == EdgeToClose(old(WorldOf(game, this, importer, outbox)), migrationId, code)
    {
      if migrationId !in inFlight {
        return NoEdge;
      }
      var record := inFlight[migrationId];
      inFlight := inFlight - {migrationId};
      byEntity := byEntity - {record.entityId};
      var _ := game.ReviveBody(record.body);
      var seconds := MIGRATION_COOLDOWN_SECONDS;
      if retryAfterMs.Some? && retryAfterMs.value > 0 {
        seconds := Max(seconds, retryAfterMs.value as real / 1000.0);
      }
      BlockEntity(game.simTime, record.entityId, record.exitEdge, permanent, seconds);
      closed := NoEdge;
      if code.OutEdgeClosed? || code.OutSimSizeMismatch? {
        closed := record.exitEdge;
      }
    }
  }

  class MigrationImporter {
    var seenMigrations: set<string>
    var immunityUntilSimTime: map<int, real>
    var ledgerSessionId: Option<string>

    constructor ()
      ensures View() == Importer({}, map[], None)
    {
      seenMigrations, immunityUntilSimTime, ledgerSessionId := {}, map[], None;
    }

    ghost function View(): Importer
      reads this
    {
      Importer(seenMigrations, immunityUntilSimTime, ledgerSessionId)
    }

    method Clear()
      modifies this
      ensures View() == Importer({}, map[], None)
    {
      seenMigrations := {};
      immunityUntilSimTime := map[];
      ledgerSessionId := None;
    }

    method Handshake(sessionId: string)
      modifies this
      ensures View() == OnHandshake(old(View()), sessionId)
    {
      if ledgerSessionId == Some(sessionId) {
        return;
      }
      seenMigrations := {};
      ledgerSessionId := Some(sessionId);
    }

    method Immune(now: real, entityId: int) returns (immune: bool)
      modifies this`immunityUntilSimTime
      ensures (immune, View()) == HasImmunity(old(View()), now, entityId)
    {
      if entityId !in immunityUntilSimTime {
        return false;
      }
      if now < immunityUntilSimTime[entityId] {
        return true;
      }
      immunityUntilSimTime := immunityUntilSimTime - {entityId};
      return false;
    }

    method Forget(entityId: int)
      modifies this`immunityUntilSimTime
      ensures immunityUntilSimTime == old(immunityUntilSimTime) - {entityId}
    {
      immunityUntilSimTime := immunityUntilSimTime - {entityId};
    }

    method Handle(game: GameBridge, exporter: MigrationExporter, outbox: Outbox, data: InData, env: InEnv)
      modifies this, game, exporter`cooldowns, outbox
      ensures WorldOf(game, exporter, this, outbox) == HandleIn(old(WorldOf(game, exporter, this, outbox)), data, env)
    {
      if data.migrationId.None? || data.migrationId.value == "" {
        return;
      }
      var id := data.migrationId.value;
      if data.entityId.None? {
        outbox.SendFrame(InNack(id, 0, MalformedMessage, true));
        return;
      }
      var entityId := data.entityId.value;
      if data.kind.None? {
        outbox.SendFrame(InNack(id, entityId, MalformedMessage, true));
        return;
      }
      if data.kind.value != "bibite" {
        outbox.SendFrame(InNack(id, entityId, KindUnsupported, true));
        return;
      }
      if data.gameVersion.None? || data.payload.None? || data.entryEdge.None? || data.entryPosition.None?
         || data.velocity.None? || data.heading.None? || data.bounceBack.None? || data.attempt.None?
      {
        outbox.SendFrame(InNack(id, entityId, MalformedMessage, true));
        return;
      }
      var edge := TryParseEdge(data.entryEdge.value);
      if edge.None? {
        outbox.SendFrame(InNack(id, entityId, MalformedMessage, true));
        return;
      }
      if data.entryPosition.value < 0.0 || data.entryPosition.value > 1.0 {
        outbox.SendFrame(InNack(id, entityId, MalformedMessage, true));
        return;
      }
      if edge.value !in env.declared {
        outbox.SendFrame(InNack(id, entityId, EdgeClosed, false));
        return;
      }
      if data.gameVersion.value != env.gameVersion {
        outbox.SendFrame(InNack(id, entityId, VersionUnsupported, true));
        return;
      }
      if !env.simReady {
        outbox.SendFrame(InNack(id, entityId, SimNotReady, false));
        return;
      }
      if Fold(id) in seenMigrations {
        outbox.SendFrame(InAck(id, entityId, true));
        return;
      }
      var here := game.Find(entityId);
      if here.Some? || entityId in exporter.byEntity {
        seenMigrations := seenMigrations + {Fold(id)};
        outbox.SendFrame(InAck(id, entityId, true));
        return;
      }
      Restore(game, exporter, outbox, id, entityId, env);
    }

    /** Rewrite, restore, re-link, and answer. */
    method Restore(game: GameBridge, exporter: MigrationExporter, outbox: Outbox, id: MigrationId, entityId: int,
          env: InEnv)
      modifies this, game, exporter`cooldowns, outbox
      ensures WorldOf(game, exporter, this, outbox)
        == Admit(old(WorldOf(game, exporter, this, outbox)), id, entityId, env)
    {
      if !env.rewritable || !env.restore.Restored? {
        outbox.SendFrame(InNack(id, entityId, DeserializeFailed, true));
        return;
      }
      var h, restoredId := env.restore.handle, env.restore.restoredId;
      game.StandBody(h, restoredId);
      if !env.restore.relinked {
        var _ := game.Destroy(h);
        outbox.SendFrame(InNack(id, entityId, RelinkFailed, true));
        return;
      }
      seenMigrations := seenMigrations + {Fold(id)};
      var key := if restoredId != 0 then restoredId else entityId;
      immunityUntilSimTime := immunityUntilSimTime[key := game.simTime + ENTRY_IMMUNITY_SECONDS];
      exporter.Forget(key);
      outbox.SendFrame(InAck(id, key, false));
    }

    method NackWithoutLooking(game: GameBridge, exporter: MigrationExporter, outbox: Outbox, data: InData,
          code: NackCode)
      modifies outbox
      ensures WorldOf(game, exporter, this, outbox)
        == NackUnhandled(old(WorldOf(game, exporter, this, outbox)), data, code)
    {
      if data.migrationId.None? || data.migrationId.value == "" {
        return;
      }
      outbox.SendFrame(InNack(data.migrationId.value, EntityOf(data), code, false));
    }
  }
}
