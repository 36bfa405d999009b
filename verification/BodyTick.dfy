/** One physics tick of one organism: the gates in front of the corner rule, and the capture
    (OnBodyTick in bibites-mod/src/MultiverseClient.cs). */
module BodyTicks {
  import opened ContractA
  import opened Borders
  import opened EdgeStatus
  import opened Worlds
  import opened Migration
  import opened CornerRule
  import ExportEdges
  import OperationLaws

  /** What the tick of body `h` sees. `running` is "armed, born, not dead or dying, the clock
      moving"; `velocity` is `None` for a body without a rigid body; `excluded` is the species
      policy's verdict. `probe`, `newId` and `messageId` are what a capture would use. */
  datatype Tick = Tick(
    h: Handle, running: bool, edges: seq<Edge>, geometry: Geometry, states: Snapshot, connected: bool,
    position: Vec, velocity: Option<Vec>, excluded: bool,
    probe: Probe, newId: MigrationId, messageId: nat, realtime: real)

  ghost predicate WellFormed(g: Game, t: Tick) {
    t.h in g.bodies && WellSized(t.states) && NoEdge !in t.edges && ExportEdges.RankSorted(t.edges)
  }

  predicate InAnyBand(t: Tick) {
    exists e :: e in t.edges && t.geometry.InCaptureBand(e, t.position)
  }

  function SightOf(t: Tick): Sight
    requires t.velocity.Some?
  {
    Sight(t.geometry, t.states, t.connected, t.position, t.velocity.value)
  }

  /** Is the organism clear of the strip its cooldown names? */
  predicate ClearOfCooldown(x: Exporter, entityId: int, g: Geometry, position: Vec) {
    entityId in x.cooldowns && g.ClearOfStrip(x.cooldowns[entityId].edge, position)
  }

  /** Does the tick get as far as asking after the organism's cooldown? */
  predicate Looks(w: World, t: Tick)
    requires t.h in w.game.bodies
  {
    var e := w.game.bodies[t.h].id;
    && t.running && e != 0 && InAnyBand(t) && !IsInFlight(w, e)
    && !HasImmunity(w.importer, w.game.simTime, e).0
  }

  /** The world once immunity and cooldown have been asked after. */
  function Asked(w: World, t: Tick): (bool, World)
    requires t.h in w.game.bodies
  {
    var e := w.game.bodies[t.h].id;
    if !t.running || e == 0 || !InAnyBand(t) || IsInFlight(w, e) then (false, w)
    else
      var (immune, importer) := HasImmunity(w.importer, w.game.simTime, e);
      if immune then (false, w.(importer := importer))
      else
        var (blocked, exporter) :=
          Unblocked(w.exporter, w.game.simTime, e, ClearOfCooldown(w.exporter, e, t.geometry, t.position));
        (!blocked, w.(importer := importer, exporter := exporter))
  }

  ghost function ChosenIn(t: Tick): Edge
    requires WellSized(t.states)
  {
    if t.excluded || t.velocity.None? then NoEdge else Choice(SightOf(t), Members(t.edges))
  }

  ghost function AfterTick(w: World, t: Tick): World
    requires WellFormed(w.game, t)
  {
    var (free, w') := Asked(w, t);
    if !free || ChosenIn(t) == NoEdge then w'
    else TryBegin(w', t.h, ChosenIn(t), t.probe, t.newId, t.messageId, t.realtime)
  }

  // ---- the object ----------------------------------------------------------------------

  class BodyWatch {
    const game: GameBridge
    const exporter: MigrationExporter
    const importer: MigrationImporter
    const outbox: Outbox

    constructor (game: GameBridge, exporter: MigrationExporter, importer: MigrationImporter, outbox: Outbox)
      ensures this.game == game && this.exporter == exporter && this.importer == importer && this.outbox == outbox
    {
      this.game, this.exporter, this.importer, this.outbox := game, exporter, importer, outbox;
    }

    ghost function View(): World
      reads this, game, exporter, importer, outbox
    {
      WorldOf(game, exporter, importer, outbox)
    }

    method AnyBand(t: Tick) returns (anyBand: bool)
      ensures anyBand == InAnyBand(t)
    {
      anyBand := false;
      var i := 0;
      while i < |t.edges|
        invariant 0 <= i <= |t.edges|
        invariant forall k | 0 <= k < i :: !t.geometry.InCaptureBand(t.edges[k], t.position)
      {
        if t.geometry.InCaptureBand(t.edges[i], t.position) {
          return true;
        }
        i := i + 1;
      }
    }

    method AskAfter(t: Tick) returns (free: bool)
      requires t.h in game.bodies
      modifies exporter, importer
      ensures (free, View()) == Asked(old(View()), t)
    {
      var entityId := game.bodies[t.h].id;
      if !t.running || entityId == 0 {
        return false;
      }
      var anyBand := AnyBand(t);
      if !anyBand {
        return false;
      }
      if entityId in exporter.byEntity {
        return false;
      }
      var immune := importer.Immune(game.simTime, entityId);
      if immune {
        return false;
      }
      var blocked := exporter.IsBlocked(game.simTime, entityId,
        entityId in exporter.cooldowns && t.geometry.ClearOfStrip(exporter.cooldowns[entityId].edge, t.position));
      free := !blocked;
    }

    method OnBodyTick(t: Tick)
      requires WellFormed(game.View(), t)
      modifies game, exporter, importer, outbox
      ensures View() == AfterTick(old(View()), t)
    {
      var free := AskAfter(t);
      if !free {
        return;
      }
      if t.excluded || t.velocity.None? {
        return;
      }
      var chosen := ChooseEdge(SightOf(t), t.edges);
      ChoiceIsChosen(SightOf(t), Members(t.edges));
      ChosenIsUnique(SightOf(t), Members(t.edges), chosen, Choice(SightOf(t), Members(t.edges)));
      if chosen == NoEdge {
        return;
      }
      var _ := exporter.Begin(game, importer, outbox, t.h, chosen, t.probe, t.newId, t.messageId, t.realtime);
    }
  }

  // ---- what a tick exports -------------------------------------------------------------

  /** The capture condition, all conjuncts of it. */
  ghost predicate Captures(w: World, t: Tick)
    requires WellFormed(w.game, t)
  {
    var e := w.game.bodies[t.h].id;
    && t.running && e != 0
    && !IsInFlight(w, e)
    && !HasImmunity(w.importer, w.game.simTime, e).0
    && !Unblocked(w.exporter, w.game.simTime, e, ClearOfCooldown(w.exporter, e, t.geometry, t.position)).0
    && !t.excluded && t.velocity.Some?
    && exists edge :: edge in t.edges && Candidate(SightOf(t), edge)
  }

  /** A tick sends at most one frame. It sends one exactly when the capture condition holds and
      the organism serializes within the cap; the frame names this organism and the edge the
      corner rule gives, and the organism is left frozen and in flight under the new id. */
  lemma TickExportsIff(w: World, t: Tick)
    requires WellFormed(w.game, t)
    ensures var w' := AfterTick(w, t); var e := w.game.bodies[t.h].id;
      if Captures(w, t) && Begins(w, t.h, t.probe) then
        && w'.sent
          == w.sent + [MigrateOut(OutFrame(t.messageId, t.newId, e, ChosenIn(t), t.probe.serialization.content))]
        && IsChosen(SightOf(t), Members(t.edges), ChosenIn(t)) && ChosenIn(t) != NoEdge
        && IsInFlight(w', e) && !Active(w'.game, t.h)
      else
        w'.sent == w.sent && w'.game == w.game && w'.exporter.inFlight == w.exporter.inFlight
  {
    if t.velocity.Some? {
      ChoiceIsChosen(SightOf(t), Members(t.edges));
    }
    if ChosenIn(t) != NoEdge {
      assert ChosenIn(t) in t.edges;
      assert InAnyBand(t);
    }
  }

  /** Nothing about another organism changes, and neither does the ledger. */
  predicate Spares(w: World, w': World, other: int, h: Handle) {
    && (other in w'.importer.immunity <==> other in w.importer.immunity)
    && (other in w.importer.immunity ==> w'.importer.immunity[other] == w.importer.immunity[other])
    && (other in w'.exporter.cooldowns <==> other in w.exporter.cooldowns)
    && (other in w.exporter.cooldowns ==> w'.exporter.cooldowns[other] == w.exporter.cooldowns[other])
    && (h in w'.game.bodies <==> h in w.game.bodies)
    && (h in w.game.bodies ==> w'.game.bodies[h] == w.game.bodies[h])
    && w'.importer.seen == w.importer.seen && w'.importer.ledgerSession == w.importer.ledgerSession
  }

  lemma AskingSpares(w: World, t: Tick, other: int, h: Handle)
    requires t.h in w.game.bodies && other != w.game.bodies[t.h].id
    ensures Spares(w, Asked(w, t).1, other, h) && Asked(w, t).1.game == w.game
  {
    var e := w.game.bodies[t.h].id;
    OperationLaws.ImmuneMeans(w.importer, w.game.simTime, e);
    OperationLaws.BlockedMeans(w.exporter, w.game.simTime, e, ClearOfCooldown(w.exporter, e, t.geometry, t.position));
  }

  lemma CaptureSpares(w: World, t: Tick, edge: Edge, other: int, h: Handle)
    requires t.h in w.game.bodies && other != w.game.bodies[t.h].id && h != t.h
    ensures Spares(w, TryBegin(w, t.h, edge, t.probe, t.newId, t.messageId, t.realtime), other, h)
  {
    OperationLaws.CaptureMeans(w, t.h, edge, t.probe, t.newId, t.messageId, t.realtime);
  }

  /** A tick concerns one organism: no other's immunity, cooldown or body changes, and neither does
      the ledger. */
  lemma TickSpares(w: World, t: Tick, other: int, h: Handle)
    requires WellFormed(w.game, t) && other != w.game.bodies[t.h].id && h != t.h
    ensures Spares(w, AfterTick(w, t), other, h)
  {
    var asked := Asked(w, t).1;
    AskingSpares(w, t, other, h);
    if AfterTick(w, t) != asked { CaptureSpares(asked, t, ChosenIn(t), other, h); }
  }

  /** A body left standing has its immunity window open. */
  lemma StoodIsImmune(w: World, data: InData, env: InEnv)
    requires Stood(w, data, env) && env.restore.restoredId == EntityOf(data) != 0
    ensures var w' := HandleIn(w, data, env); var e := EntityOf(data);
      && env.restore.handle in w'.game.bodies && w'.game.bodies[env.restore.handle].id == e
      && e in w'.importer.immunity && w'.importer.immunity[e] == w.game.simTime + ENTRY_IMMUNITY_SECONDS
  {
  }
}
