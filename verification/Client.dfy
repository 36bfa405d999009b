/** The client's queue of mutations: frames that spawn, destroy or revive an organism wait here
    in arrival order for the game tick (bibites-mod/src/MultiverseClient.cs). The first part is
    the specification on values, the second the object that updates its list in place. */
module Clients {
  import opened ContractA
  import opened Worlds
  import opened Migration
  import opened OperationLaws

  datatype Mutation =
    | MigrateIn(data: InData)
    | MigrateOutAck(ackId: Option<MigrationId>, ackEntity: Option<int>)
    | MigrateOutNack(nackId: Option<MigrationId>, nackEntity: Option<int>, code: OutNackCode,
      nackClass: Option<string>, retryAfterMs: Option<int>)

  datatype Pending = Pending(mutation: Mutation, queuedAt: real)

  datatype Client = Client(world: World, pending: seq<Pending>, armed: bool)

  const MAX_MUTATIONS_PER_FIXED_UPDATE: nat := 4

  /** An unrecognised class is treated as transient. */
  predicate IsPermanent(nackClass: Option<string>) {
    nackClass == Some("permanent")
  }

  function ApplyMutation(w: World, m: Mutation, env: InEnv): World {
    match m
    case MigrateIn(data) => HandleIn(w, data, env)
    case MigrateOutAck(id, e) => if id.Some? && e.Some? then HandleAck(w, id.value, e.value) else w
    case MigrateOutNack(id, e, _, nackClass, retry) =>
      if id.Some? && e.Some? then HandleNack(w, id.value, IsPermanent(nackClass), retry) else w
  }

  /** The entries of `batch` applied in order; `envs[k]` is what the game answers entry k. */
  function ApplyBatch(w: World, batch: seq<Pending>, envs: seq<InEnv>): World
    requires |batch| <= |envs|
  {
    if batch == [] then w
    else ApplyMutation(ApplyBatch(w, batch[..|batch| - 1], envs), batch[|batch| - 1].mutation, envs[|batch| - 1])
  }

  lemma BatchNext(w: World, s: seq<Pending>, k: nat, envs: seq<InEnv>)
    requires k < |s| <= |envs|
    ensures ApplyBatch(w, s[..k + 1], envs) == ApplyMutation(ApplyBatch(w, s[..k], envs), s[k].mutation, envs[k])
  {
    assert s[..k + 1][..k] == s[..k];
  }

  /** A delivery that has waited out the grace period of a paused game. */
  predicate Stale(p: Pending, now: real) {
    p.mutation.MigrateIn? && (now - p.queuedAt) * 1000.0 >= SIM_NOT_READY_GRACE_MS
  }

  function Kept(s: seq<Pending>, now: real): seq<Pending> {
    if s == [] then []
    else if Stale(s[0], now) then Kept(s[1..], now)
    else [s[0]] + Kept(s[1..], now)
  }

  /** The stale deliveries refused, latest first. */
  function RefuseStale(w: World, s: seq<Pending>, now: real): World {
    if s == [] then w
    else
      var v := RefuseStale(w, s[1..], now);
      if Stale(s[0], now) then NackUnhandled(v, s[0].mutation.data, SimNotReady) else v
  }

  /** Every queued delivery refused because the world unloads, in order. */
  function RefuseAll(w: World, s: seq<Pending>): World {
    if s == [] then w
    else
      var v := RefuseAll(w, s[..|s| - 1]);
      var last := s[|s| - 1].mutation;
      if last.MigrateIn? then NackUnhandled(v, last.data, ShuttingDown) else v
  }

  /** With nothing in flight the exporter is left as it is; otherwise all of it is dropped. */
  function Unloaded(w: World): World {
    w.(exporter := if w.exporter.inFlight == map[] then w.exporter else Exporter(map[], map[], map[]),
       importer := Importer({}, map[], None))
  }

  function Connected(w: World, session: string, order: seq<MigrationId>, realtime: real): World
    requires forall id | id in order :: id in w.exporter.inFlight
  {
    ReplayOnReconnect(Send(w.(importer := OnHandshake(w.importer, session)), ConfigUpdate(session)), order, realtime)
  }

  lemma {:induction false} KeptAppend(s: seq<Pending>, t: seq<Pending>, now: real)
    ensures Kept(s + t, now) == Kept(s, now) + Kept(t, now)
  {
    if s == [] {
      assert [] + t == t;
    } else {
      var head := if Stale(s[0], now) then [] else [s[0]];
      KeptAppend(s[1..], t, now);
      assert (s + t)[0] == s[0] && (s + t)[1..] == s[1..] + t;
      assert Kept(s + t, now) == head + Kept(s[1..] + t, now);
      assert head + (Kept(s[1..], now) + Kept(t, now)) == (head + Kept(s[1..], now)) + Kept(t, now);
    }
  }

  // ---- the client object ---------------------------------------------------------------

  class MultiverseClient {
    const game: GameBridge
    const exporter: MigrationExporter
    const importer: MigrationImporter
    const outbox: Outbox
    var pendingMutations: seq<Pending>
    var armed: bool
    var sessionId: string

    constructor (game: GameBridge)
      ensures this.game == game && fresh(exporter) && fresh(importer) && fresh(outbox)
      ensures !armed && pendingMutations == []
    {
      this.game := game;
      exporter := new MigrationExporter();
      importer := new MigrationImporter();
      outbox := new Outbox();
      pendingMutations, armed, sessionId := [], false, "";
    }

    ghost function View(): Client
      reads this, game, exporter, importer, outbox
    {
      Client(WorldOf(game, exporter, importer, outbox), pendingMutations, armed)
    }

    method Arm(session: string)
      modifies this, exporter, importer
      ensures armed && sessionId == session && pendingMutations == []
      ensures exporter.View() == Exporter(map[], map[], map[]) && importer.View() == Importer({}, map[], None)
    {
      armed := true;
      sessionId := session;
      pendingMutations := [];
      exporter.Clear();
      importer.Clear();
    }

    method OnFrame(mutation: Mutation, realtime: real)
      modifies this`pendingMutations
      ensures View() == old(View()).(pending := old(pendingMutations) + [Pending(mutation, realtime)])
    {
      pendingMutations := pendingMutations + [Pending(mutation, realtime)];
    }

    method OnConnected(realtime: real) returns (ghost order: seq<MigrationId>)
      modifies exporter, importer, outbox
      ensures Enumerates(order, old(exporter.inFlight).Keys)
      ensures forall id | id in order :: id in old(exporter.inFlight)
      ensures old(outbox.sent) + [ConfigUpdate(sessionId)] <= outbox.sent
      ensures Restarted(old(exporter.inFlight), exporter.inFlight, realtime)
      ensures OwnIds(old(exporter.inFlight)) ==>
        ResendsEach(old(exporter.inFlight), outbox.sent[|old(outbox.sent)| + 1..])
      ensures View() == old(View()).(world := Connected(old(View()).world, sessionId, order, realtime))
    {
      importer.Handshake(sessionId);
      outbox.SendFrame(ConfigUpdate(sessionId));
      order := exporter.Replay(game, importer, outbox, realtime);
    }

    method Dispatch(m: Mutation, env: InEnv) returns (closed: Edge)
      modifies game, exporter, importer, outbox
      ensures View() == old(View()).(world := ApplyMutation(old(View()).world, m, env))
      ensures var refused := m.MigrateOutNack? && m.nackId.Some? && m.nackEntity.Some?
                             && m.nackId.value in old(exporter.inFlight)
                             && (m.code.OutEdgeClosed? || m.code.OutSimSizeMismatch?);
        closed == if refused then old(exporter.inFlight)[m.nackId.value].exitEdge else NoEdge
    {
      closed := NoEdge;
      match m {
        case MigrateIn(data) =>
          importer.Handle(game, exporter, outbox, data, env);
        case MigrateOutAck(id, e) =>
          if id.Some? && e.Some? {
            exporter.Ack(game, importer, outbox, id.value, e.value);
          }
        case MigrateOutNack(id, e, code, nackClass, retry) =>
          if id.Some? && e.Some? {
            var permanent := nackClass == Some("permanent");
            closed := exporter.Nack(game, importer, outbox, id.value, code, permanent, retry);
          }
      }
    }

    /** `outOfTime` is the wall clock: the budget may run out after any entry. */
    method ApplyMutations(envs: seq<InEnv>) returns (applied: nat)
      requires |pendingMutations| <= |envs|
      modifies this`pendingMutations, game, exporter, importer, outbox
      ensures pendingMutations == [] <==> applied == |old(pendingMutations)|
      ensures old(pendingMutations) != [] ==> 1 <= applied <= MAX_MUTATIONS_PER_FIXED_UPDATE
      ensures applied <= |old(pendingMutations)| && pendingMutations == old(pendingMutations)[applied..]
      ensures View().world == ApplyBatch(old(View()).world, old(pendingMutations)[..applied], envs)
      ensures armed == old(armed)
    {
      applied := 0;
      if |pendingMutations| == 0 {
        return;
      }
      while applied < |pendingMutations|
        invariant pendingMutations == old(pendingMutations)
        invariant applied <= |pendingMutations| && applied < MAX_MUTATIONS_PER_FIXED_UPDATE
        invariant View().world == ApplyBatch(old(View()).world, pendingMutations[..applied], envs)
      {
        var entry := pendingMutations[applied];
        BatchNext(old(View()).world, pendingMutations, applied, envs);
        var _ := Dispatch(entry.mutation, envs[applied]);
        applied := applied + 1;
        var outOfTime: bool := *;
        if applied >= MAX_MUTATIONS_PER_FIXED_UPDATE || outOfTime {
          break;
        }
      }
      pendingMutations := pendingMutations[applied..];
    }

    method RejectWhilePaused(running: bool, now: real)
      modifies this`pendingMutations, outbox
      ensures running ==> View() == old(View())
      ensures !running ==> View() == old(View()).(
                world := RefuseStale(old(View()).world, old(pendingMutations), now),
                pending := Kept(old(pendingMutations), now))
    {
      if |pendingMutations| == 0 || running {
        return;
      }
      ghost var all := pendingMutations;
      var i := |pendingMutations|;
      while i > 0
        invariant 0 <= i <= |all|
        invariant pendingMutations == all[..i] + Kept(all[i..], now)
        invariant View().world == RefuseStale(old(View()).world, all[i..], now)
      {
        i := i - 1;
        assert all[i..][1..] == all[i + 1..];
        var entry := pendingMutations[i];
        if (now - entry.queuedAt) * 1000.0 < SIM_NOT_READY_GRACE_MS || !entry.mutation.MigrateIn? {
          continue;
        }
        importer.NackWithoutLooking(game, exporter, outbox, entry.mutation.data, SimNotReady);
        pendingMutations := pendingMutations[..i] + pendingMutations[i + 1..];
      }
      assert all[0..] == all;
    }

    method Disarm()
      modifies this, exporter, importer, outbox
      ensures View() == Client(Unloaded(RefuseAll(old(View()).world, old(pendingMutations))), [], false)
    {
      var i := 0;
      while i < |pendingMutations|
        invariant 0 <= i <= |pendingMutations| == |old(pendingMutations)| && pendingMutations == old(pendingMutations)
        invariant View().world == RefuseAll(old(View()).world, pendingMutations[..i])
      {
        var entry := pendingMutations[i];
        if entry.mutation.MigrateIn? {
          importer.NackWithoutLooking(game, exporter, outbox, entry.mutation.data, ShuttingDown);
        }
        assert pendingMutations[..i + 1][..i] == pendingMutations[..i];
        i := i + 1;
      }
      assert pendingMutations[..i] == pendingMutations;
      pendingMutations := [];
      if |exporter.inFlight| != 0 {
        exporter.Clear();
      }
      importer.Clear();
      armed := false;
    }
  }
}
