/** What a refusal costs, over whole runs: after a transient one the organism sends no new
    MIGRATE_OUT until some tick has found it clear of the refused strip and the time has passed;
    after a permanent one it never does. And what an arrival is given: no MIGRATE_OUT inside its
    immunity window. Arrival or departure of the organism ends a cooldown and a window, so the
    runs here are those without either. */
module Cooldowns {
  import opened ContractA
  import opened Lists
  import opened Borders
  import opened Worlds
  import opened LocalCustody
  import opened BodyTicks
  import opened CornerRule
  import opened EdgeStatus
  import ExportEdges

  /** A physics tick, or any other step of the world. A capture happens inside a tick only. */
  datatype Event = Ticks(tick: Tick) | Does(op: Op)

  ghost predicate Possible(w: World, ev: Event) {
    match ev
    case Ticks(t) =>
      WellFormed(w.game, t) && Active(w.game, t.h) && t.newId !in w.exporter.inFlight && IdUnsent(w, t.newId)
    case Does(op) => Allowed(w, op) && !op.Begin? && !op.AskBlocked?
  }

  ghost function Next(w: World, ev: Event): World
    requires Possible(w, ev)
  {
    match ev
    case Ticks(t) => AfterTick(w, t)
    case Does(op) => Apply(w, op)
  }

  /** Neither an arrival of organism `k` nor a departure of it. */
  predicate Undisturbed(ev: Event, k: int) {
    match ev
    case Ticks(_) => true
    case Does(op) => (op.Ack? ==> op.entityId != k) && (op.In? ==> EntityOf(op.data) != k)
  }

  ghost predicate Proper(w: World, evs: seq<Event>, k: int)
    decreases |evs|
  {
    evs == [] || (Possible(w, evs[0]) && Undisturbed(evs[0], k) && Proper(Next(w, evs[0]), evs[1..], k))
  }

  /** The world just before event `i`; the world after the run when `i` is its length. */
  ghost function Before(w: World, evs: seq<Event>, k: int, i: nat): World
    requires Proper(w, evs, k) && i <= |evs|
    decreases i
  {
    if i == 0 then w else Before(Next(w, evs[0]), evs[1..], k, i - 1)
  }

  /** Every frame of organism `k` in the list. */
  ghost function FramesOf(sent: seq<Frame>, k: int): seq<Frame> {
    if sent == [] then []
    else (if sent[0].MigrateOut? && sent[0].out.entityId == k then [sent[0]] else []) + FramesOf(sent[1..], k)
  }

  /** Event `i` is a tick of organism `k` that got as far as asking after its cooldown. */
  ghost predicate LooksAt(w: World, evs: seq<Event>, k: int, i: nat)
    requires Proper(w, evs, k)
  {
    i < |evs| && evs[i].Ticks? && LookedAt(Before(w, evs, k, i), evs[i].tick, k)
  }

  ghost predicate LookedAt(w: World, t: Tick, k: int) {
    t.h in w.game.bodies && w.game.bodies[t.h].id == k && Looks(w, t)
  }

  /** Some such tick finds it clear of `edge`, and that tick or a later one finds the time up. */
  ghost predicate Released(w: World, evs: seq<Event>, k: int, edge: Edge, until: real)
    requires Proper(w, evs, k)
  {
    exists j: nat, i: nat | j <= i ::
      ClearAt(w, evs, k, edge, j) && UpAt(w, evs, k, until, i)
  }

  ghost predicate ClearAt(w: World, evs: seq<Event>, k: int, edge: Edge, j: nat)
    requires Proper(w, evs, k)
  {
    LooksAt(w, evs, k, j) && evs[j].tick.geometry.ClearOfStrip(edge, evs[j].tick.position)
  }

  ghost predicate UpAt(w: World, evs: seq<Event>, k: int, until: real, i: nat)
    requires Proper(w, evs, k)
  {
    LooksAt(w, evs, k, i) && Before(w, evs, k, i).game.simTime >= until
  }

  // ---- one event -----------------------------------------------------------------------

  /** A refused organism: custody in order, not in flight, and under this cooldown. */
  ghost predicate Cooling(w: World, k: int, c: Cooldown) {
    Inv(w) && k in w.exporter.cooldowns && w.exporter.cooldowns[k] == c && !IsInFlight(w, k)
  }

  lemma {:induction false} FramesOfAppend(a: seq<Frame>, b: seq<Frame>, k: int)
    ensures FramesOf(a + b, k) == FramesOf(a, k) + FramesOf(b, k)
  {
    if a == [] {
      assert a + b == b;
    } else {
      var head := if a[0].MigrateOut? && a[0].out.entityId == k then [a[0]] else [];
      FramesOfAppend(a[1..], b, k);
      assert (a + b)[0] == a[0] && (a + b)[1..] == a[1..] + b;
      assert FramesOf(a + b, k) == head + FramesOf(a[1..] + b, k);
      Reassociate(head, FramesOf(a[1..], k), FramesOf(b, k));
    }
  }

  lemma {:induction false} FramesOfNone(a: seq<Frame>, k: int)
    requires forall f | f in a && f.MigrateOut? :: f.out.entityId != k
    ensures FramesOf(a, k) == []
  {
    if a != [] {
      assert a == [a[0]] + a[1..];
      FramesOfNone(a[1..], k);
    }
  }

  /** The tick is made of custody steps, so it keeps what they keep. */
  lemma TickKeeps(w: World, t: Tick)
    requires Inv(w) && Possible(w, Ticks(t))
    ensures Inv(AfterTick(w, t))
  {
    var (free, w') := Asked(w, t);
    QuietKeeps(w, w');
    if free && ChosenIn(t) != NoEdge {
      BeginKeeps(w', t.h, ChosenIn(t), t.probe, t.newId, t.messageId, t.realtime);
    }
  }

  lemma ReplaySendsOthers(w: World, order: seq<MigrationId>, k: int)
    requires Inv(w) && !IsInFlight(w, k) && Enumerates(order, w.exporter.inFlight.Keys)
    ensures FramesOf(w.sent + ReplayFrames(w.exporter.inFlight, order), k) == FramesOf(w.sent, k)
  {
    var frames := ReplayFrames(w.exporter.inFlight, order);
    forall f | f in frames ensures f.MigrateOut? && f.out.entityId != k {
      var i :| 0 <= i < |frames| && frames[i] == f;
      assert order[i] in order;
      assert RecordOk(w, order[i]);
    }
    FramesOfNone(frames, k);
    FramesOfAppend(w.sent, frames, k);
  }

  /** A MIGRATE_IN is answered with at most one frame, and never with a MIGRATE_OUT. */
  lemma InAnswers(w: World, data: InData, env: InEnv)
    ensures var w' := HandleIn(w, data, env);
      || w'.sent == w.sent
      || (|w'.sent| == |w.sent| + 1 && w'.sent == w.sent + [w'.sent[|w.sent|]] && !w'.sent[|w.sent|].MigrateOut?)
  {
  }

  lemma AnswersAreNoExports(w: World, data: InData, env: InEnv, k: int)
    ensures FramesOf(HandleIn(w, data, env).sent, k) == FramesOf(w.sent, k)
  {
    var w' := HandleIn(w, data, env);
    InAnswers(w, data, env);
    if w'.sent != w.sent {
      var f := w'.sent[|w.sent|];
      FramesOfAppend(w.sent, [f], k);
      FramesOfNone([f], k);
    }
  }

  lemma NackSendsAnswers(w: World, data: InData, code: NackCode, k: int)
    ensures FramesOf(NackUnhandled(w, data, code).sent, k) == FramesOf(w.sent, k)
  {
    if UsableId(data) {
      var f := InNack(data.migrationId.value, EntityOf(data), code, false);
      FramesOfAppend(w.sent, [f], k);
      FramesOfNone([f], k);
    }
  }

  /** This step sends nothing of organism `k`, does not put it in flight, and keeps what the tables
      say about it. */
  ghost predicate Spares(w: World, w': World, k: int) {
    && !IsInFlight(w', k)
    && FramesOf(w'.sent, k) == FramesOf(w.sent, k)
    && (k in w.exporter.cooldowns ==>
          k in w'.exporter.cooldowns && w'.exporter.cooldowns[k] == w.exporter.cooldowns[k])
    && (k in w.importer.immunity && w.game.simTime < w.importer.immunity[k] ==>
          k in w'.importer.immunity && w'.importer.immunity[k] == w.importer.immunity[k])
  }

  lemma AckSpares(w: World, id: MigrationId, e: int, k: int)
    requires Inv(w) && !IsInFlight(w, k) && e != k
    ensures Spares(w, HandleAck(w, id, e), k)
  {
    if id in w.exporter.inFlight { assert RecordOk(w, id); }
  }

  lemma NackSpares(w: World, id: MigrationId, permanent: bool, retry: Option<int>, k: int)
    requires Inv(w) && !IsInFlight(w, k)
    ensures Spares(w, HandleNack(w, id, permanent, retry), k)
  {
    if id in w.exporter.inFlight { assert RecordOk(w, id); }
  }

  lemma ReplaySpares(w: World, order: seq<MigrationId>, realtime: real, k: int)
    requires Inv(w) && !IsInFlight(w, k) && Enumerates(order, w.exporter.inFlight.Keys)
    ensures Spares(w, ReplayOnReconnect(w, order, realtime), k)
  {
    ReplaySendsOthers(w, order, k);
  }

  lemma InSpares(w: World, data: InData, env: InEnv, k: int)
    requires !IsInFlight(w, k) && EntityOf(data) != k && Allowed(w, In(data, env))
    ensures Spares(w, HandleIn(w, data, env), k)
  {
    AnswersAreNoExports(w, data, env, k);
    InTouchesItsOwn(w, data, env, k);
  }

  lemma InTouchesItsOwn(w: World, data: InData, env: InEnv, k: int)
    requires EntityOf(data) != k && Allowed(w, In(data, env))
    ensures var w' := HandleIn(w, data, env);
      && w'.exporter.byEntity == w.exporter.byEntity
      && (k in w.exporter.cooldowns ==>
            k in w'.exporter.cooldowns && w'.exporter.cooldowns[k] == w.exporter.cooldowns[k])
      && (k in w.importer.immunity ==>
            k in w'.importer.immunity && w'.importer.immunity[k] == w.importer.immunity[k])
  {
  }

  /** The other steps touch no table but timers and the ledger. */
  lemma RestSpares(w: World, op: Op, k: int)
    requires !IsInFlight(w, k) && Possible(w, Does(op))
    requires !op.Ack? && !op.Nack? && !op.Replay? && !op.In? && !op.NackIn? && !op.Greets?
    ensures Spares(w, Apply(w, op), k)
  {
  }

  /** Every step that is no tick spares an organism that is not in flight. */
  lemma StepSpares(w: World, op: Op, k: int)
    requires Inv(w) && !IsInFlight(w, k) && Possible(w, Does(op)) && Undisturbed(Does(op), k)
    ensures Spares(w, Apply(w, op), k)
  {
    match op
    case Ack(id, e) => AckSpares(w, id, e, k);
    case Nack(id, permanent, retry) => NackSpares(w, id, permanent, retry, k);
    case Replay(order, realtime) => ReplaySpares(w, order, realtime, k);
    case In(data, env) => InSpares(w, data, env, k);
    case NackIn(data, code) => NackSendsAnswers(w, data, code, k);
    case Greets(session) =>
      FramesOfAppend(w.sent, [ConfigUpdate(session)], k); FramesOfNone([ConfigUpdate(session)], k);
    case _ => RestSpares(w, op, k);
  }

  /** So a refused organism stays refused, under the same cooldown. */
  lemma OtherStep(w: World, op: Op, k: int, c: Cooldown)
    requires Cooling(w, k, c) && Possible(w, Does(op)) && Undisturbed(Does(op), k)
    ensures Cooling(Apply(w, op), k, c)
    ensures FramesOf(Apply(w, op).sent, k) == FramesOf(w.sent, k)
  {
    StepKeeps(w, op);
    StepSpares(w, op, k);
  }

  /** The cooldown once a tick has looked at it and not released it. */
  function Stepped(c: Cooldown, clear: bool): Cooldown {
    if !c.permanent && clear then c.(requireExit := false) else c
  }

  /** Does this tick release the organism? Only a tick that looks can. */
  ghost predicate Frees(w: World, t: Tick, k: int, c: Cooldown)
  {
    && LookedAt(w, t, k) && !c.permanent
    && (c.requireExit && c.edge != NoEdge ==> t.geometry.ClearOfStrip(c.edge, t.position))
    && w.game.simTime >= c.untilSimTime
  }

  ghost predicate ClearsNow(w: World, t: Tick, k: int, c: Cooldown) {
    LookedAt(w, t, k) && (c.edge == NoEdge || t.geometry.ClearOfStrip(c.edge, t.position))
  }

  lemma AskedOfAnother(w: World, t: Tick, k: int)
    requires t.h in w.game.bodies && w.game.bodies[t.h].id != k
    ensures var x, y := w.exporter, Asked(w, t).1.exporter;
      (k in y.cooldowns <==> k in x.cooldowns) && (k in x.cooldowns ==> y.cooldowns[k] == x.cooldowns[k])
      && y.byEntity == x.byEntity && Asked(w, t).1.game == w.game
  {
  }

  lemma BeginOfAnother(w: World, h: Handle, edge: Edge, probe: Probe, newId: MigrationId, messageId: nat,
        realtime: real, k: int)
    requires h in w.game.bodies && w.game.bodies[h].id != k
    ensures var x, y := w.exporter, TryBegin(w, h, edge, probe, newId, messageId, realtime).exporter;
      (k in y.cooldowns <==> k in x.cooldowns) && (k in x.cooldowns ==> y.cooldowns[k] == x.cooldowns[k])
      && (k in y.byEntity <==> k in x.byEntity)
  {
  }

  /** A tick of another organism touches neither the cooldown nor the frames of this one. */
  lemma TickOfAnother(w: World, t: Tick, k: int)
    requires WellFormed(w.game, t) && w.game.bodies[t.h].id != k
    ensures var w' := AfterTick(w, t);
      (k in w'.exporter.cooldowns <==> k in w.exporter.cooldowns)
      && (k in w.exporter.cooldowns ==> w'.exporter.cooldowns[k] == w.exporter.cooldowns[k])
      && (IsInFlight(w', k) <==> IsInFlight(w, k))
      && FramesOf(w'.sent, k) == FramesOf(w.sent, k)
  {
    AskedOfAnother(w, t, k);
    BeginOfAnother(Asked(w, t).1, t.h, ChosenIn(t), t.probe, t.newId, t.messageId, t.realtime, k);
    AnothersFrames(w, t, k);
  }

  lemma AnothersFrames(w: World, t: Tick, k: int)
    requires WellFormed(w.game, t) && w.game.bodies[t.h].id != k
    ensures FramesOf(AfterTick(w, t).sent, k) == FramesOf(w.sent, k)
  {
    TickExportsIff(w, t);
    if AfterTick(w, t).sent != w.sent {
      var f :=
        MigrateOut(OutFrame(t.messageId, t.newId, w.game.bodies[t.h].id, ChosenIn(t), t.probe.serialization.content));
      FramesOfAppend(w.sent, [f], k);
      FramesOfNone([f], k);
    }
  }

  /** A tick of the refused organism itself that does not release it. */
  lemma TickOfItself(w: World, t: Tick, k: int, c: Cooldown)
    requires Cooling(w, k, c) && WellFormed(w.game, t) && w.game.bodies[t.h].id == k && !Frees(w, t, k, c)
    ensures var (free, w') := Asked(w, t);
      && !free && w'.sent == w.sent && w'.exporter.byEntity == w.exporter.byEntity
      && k in w'.exporter.cooldowns && w'.exporter.cooldowns[k] == Stepped(c, ClearsNow(w, t, k, c))
  {
  }

  lemma TickStep(w: World, t: Tick, k: int, c: Cooldown)
    requires Cooling(w, k, c) && Possible(w, Ticks(t)) && !Frees(w, t, k, c)
    ensures Cooling(AfterTick(w, t), k, Stepped(c, ClearsNow(w, t, k, c)))
    ensures FramesOf(AfterTick(w, t).sent, k) == FramesOf(w.sent, k)
  {
    TickKeeps(w, t);
    if w.game.bodies[t.h].id == k {
      TickOfItself(w, t, k, c);
    } else {
      TickOfAnother(w, t, k);
    }
  }

  // ---- whole runs ----------------------------------------------------------------------

  /** The cooldown before the run, seen again with one event gone: what happened later still
      happened later. */
  lemma ShiftClear(w: World, evs: seq<Event>, k: int, edge: Edge, j: nat)
    requires Proper(w, evs, k) && evs != []
    requires ClearAt(Next(w, evs[0]), evs[1..], k, edge, j)
    ensures ClearAt(w, evs, k, edge, j + 1)
  {
    assert evs[1..][j] == evs[j + 1];
  }

  lemma ShiftUp(w: World, evs: seq<Event>, k: int, until: real, i: nat)
    requires Proper(w, evs, k) && evs != []
    requires UpAt(Next(w, evs[0]), evs[1..], k, until, i)
    ensures UpAt(w, evs, k, until, i + 1)
  {
    assert evs[1..][i] == evs[i + 1];
  }

  /** What would release an organism under cooldown `c`. */
  ghost predicate Releases(w: World, evs: seq<Event>, k: int, c: Cooldown)
    requires Proper(w, evs, k)
  {
    !c.permanent && (if c.requireExit && c.edge != NoEdge then Released(w, evs, k, c.edge, c.untilSimTime)
                     else exists i: nat :: UpAt(w, evs, k, c.untilSimTime, i))
  }

  lemma ReleasesLater(w: World, evs: seq<Event>, k: int, c: Cooldown, clear: bool)
    requires Proper(w, evs, k) && evs != []
    requires Releases(Next(w, evs[0]), evs[1..], k, Stepped(c, clear))
    requires clear && c.requireExit && c.edge != NoEdge ==> ClearAt(w, evs, k, c.edge, 0)
    ensures Releases(w, evs, k, c)
  {
    var w', rest, until := Next(w, evs[0]), evs[1..], c.untilSimTime;
    if !clear && c.requireExit && c.edge != NoEdge {
      var j: nat, i: nat :| j <= i && ClearAt(w', rest, k, c.edge, j) && UpAt(w', rest, k, until, i);
      ShiftClear(w, evs, k, c.edge, j);
      ShiftUp(w, evs, k, until, i);
      assert ClearAt(w, evs, k, c.edge, j + 1) && UpAt(w, evs, k, until, i + 1);
    } else {
      var i: nat :| UpAt(w', rest, k, until, i);
      ShiftUp(w, evs, k, until, i);
    }
  }

  lemma FreesNow(w: World, evs: seq<Event>, k: int, c: Cooldown)
    requires Proper(w, evs, k) && evs != [] && evs[0].Ticks? && Frees(w, evs[0].tick, k, c)
    ensures Releases(w, evs, k, c)
  {
    assert Before(w, evs, k, 0) == w;
    assert UpAt(w, evs, k, c.untilSimTime, 0);
    if c.requireExit && c.edge != NoEdge { assert ClearAt(w, evs, k, c.edge, 0); }
  }

  /** A run without a release sends no frame of the organism at all and leaves it blocked. */
  lemma {:induction false} NothingUntilReleased(w: World, evs: seq<Event>, k: int, c: Cooldown)
    requires Proper(w, evs, k) && Cooling(w, k, c) && !Releases(w, evs, k, c)
    ensures FramesOf(Before(w, evs, k, |evs|).sent, k) == FramesOf(w.sent, k)
    ensures k in Before(w, evs, k, |evs|).exporter.cooldowns && !IsInFlight(Before(w, evs, k, |evs|), k)
    decreases |evs|
  {
    if evs != [] {
      var w', rest := Next(w, evs[0]), evs[1..];
      var clear := false;
      match evs[0] {
        case Ticks(t) =>
          if Frees(w, t, k, c) { FreesNow(w, evs, k, c); }
          clear := ClearsNow(w, t, k, c);
          TickStep(w, t, k, c);
        case Does(op) =>
          OtherStep(w, op, k, c);
      }
      if Releases(w', rest, k, Stepped(c, clear)) {
        if clear && c.requireExit && c.edge != NoEdge { assert Before(w, evs, k, 0) == w; }
        ReleasesLater(w, evs, k, c, clear);
      }
      NothingUntilReleased(w', rest, k, Stepped(c, clear));
    }
  }

  /** A NACK leaves the organism refused: cooling, on the edge it left by, until the retry time. */
  lemma NackCools(w: World, id: MigrationId, permanent: bool, retry: Option<int>)
    requires Inv(w) && id in w.exporter.inFlight
    ensures var r := w.exporter.inFlight[id];
      Cooling(HandleNack(w, id, permanent, retry), r.entityId,
              Cooldown(permanent, w.game.simTime + NackSeconds(retry), true, r.exitEdge))
    ensures NackSeconds(retry) >= MIGRATION_COOLDOWN_SECONDS
  {
    assert RecordOk(w, id);
    NackKeeps(w, id, permanent, retry);
  }

  /** After a transient NACK no MIGRATE_OUT of the organism is sent before some tick has found
      it clear of the edge it was refused at, and then some tick has found the cooldown over. */
  lemma RefusedOrganismWaits(w: World, id: MigrationId, retry: Option<int>, evs: seq<Event>)
    requires Inv(w) && id in w.exporter.inFlight
    requires var k := w.exporter.inFlight[id].entityId; Proper(HandleNack(w, id, false, retry), evs, k)
    ensures var r := w.exporter.inFlight[id]; var w' := HandleNack(w, id, false, retry);
      && r.exitEdge != NoEdge
      && FramesOf(Before(w', evs, r.entityId, |evs|).sent, r.entityId) != FramesOf(w'.sent, r.entityId)
      ==> Released(w', evs, r.entityId, r.exitEdge, w.game.simTime + NackSeconds(retry))
  {
    var r := w.exporter.inFlight[id];
    var w' := HandleNack(w, id, false, retry);
    var c := Cooldown(false, w.game.simTime + NackSeconds(retry), true, r.exitEdge);
    NackCools(w, id, false, retry);
    if r.exitEdge != NoEdge && !Released(w', evs, r.entityId, r.exitEdge, c.untilSimTime) {
      NothingUntilReleased(w', evs, r.entityId, c);
    }
  }

  /** After a permanent NACK none is sent, ever. */
  lemma RefusedForGood(w: World, id: MigrationId, retry: Option<int>, evs: seq<Event>)
    requires Inv(w) && id in w.exporter.inFlight
    requires var k := w.exporter.inFlight[id].entityId; Proper(HandleNack(w, id, true, retry), evs, k)
    ensures var k := w.exporter.inFlight[id].entityId; var w' := HandleNack(w, id, true, retry);
      FramesOf(Before(w', evs, k, |evs|).sent, k) == FramesOf(w'.sent, k)
  {
    var r := w.exporter.inFlight[id];
    NackCools(w, id, true, retry);
    NothingUntilReleased(HandleNack(w, id, true, retry), evs, r.entityId,
      Cooldown(true, w.game.simTime + NackSeconds(retry), true, r.exitEdge));
  }

  // ---- when a refused organism can leave again ------------------------------------------

  /** Every tick of the run sees these declared edges and this geometry. */
  predicate Sees(evs: seq<Event>, edges: seq<Edge>, g: Geometry) {
    forall ev | ev in evs && ev.Ticks? :: ev.tick.edges == edges && ev.tick.geometry == g
  }

  /** The release is a permission, not a promise. Only an organism inside some declared band is
      asked about, and nobody inside a band is clear of its strip: with no edge declared but the
      one that refused it, an organism is never exported again. */
  lemma OneEdgeNeverReleases(w: World, evs: seq<Event>, k: int, c: Cooldown)
    requires Proper(w, evs, k) && Cooling(w, k, c) && c.requireExit && c.edge != NoEdge
    requires forall ev | ev in evs && ev.Ticks? :: forall f | f in ev.tick.edges :: f == c.edge
    ensures !Releases(w, evs, k, c)
    ensures FramesOf(Before(w, evs, k, |evs|).sent, k) == FramesOf(w.sent, k)
  {
    forall j: nat ensures !ClearAt(w, evs, k, c.edge, j) {
      if LooksAt(w, evs, k, j) {
        var t := evs[j].tick;
        assert evs[j] in evs;
        assert InAnyBand(t);
        InBandIsNotClear(t.geometry, c.edge, t.position);
      }
    }
    NothingUntilReleased(w, evs, k, c);
  }

  /** A moment past the cooldown and past any immunity the organism has. */
  function Due(w: World, k: int, c: Cooldown): (time: real)
    ensures time >= w.game.simTime && time >= c.untilSimTime
    ensures k in w.importer.immunity ==> time >= w.importer.immunity[k]
  {
    Max(Max(w.game.simTime, c.untilSimTime), if k in w.importer.immunity then w.importer.immunity[k] else 0.0)
  }

  function AllOpen(): (s: Snapshot)
    ensures WellSized(s) && forall e :: IsOpen(s, e)
  {
    var open := Slot(true, None, false, 0.0);
    Snapshot(1, [open, open, open, open, open])
  }

  /** At `spot`, moving by `v`: out through `f`, and clear of the strip of `e`. */
  predicate LeavesBy(g: Geometry, e: Edge, f: Edge, spot: Vec, v: Vec) {
    g.InCaptureBand(f, spot) && g.ClearOfStrip(e, spot) && OutwardComponent(f, v) > 0.0
  }

  /** A tick of body `h` there, with everything open. */
  function LeavingTick(h: Handle, spot: Vec, v: Vec, edges: seq<Edge>, g: Geometry, newId: MigrationId): Tick {
    Tick(h, true, edges, g, AllOpen(), true, spot, Some(v), false, Probe(true, Serialized("", 0)), newId, 0, 0.0)
  }

  /** The body of a refused organism, and an id that was never used: what any tick has at hand. */
  ghost predicate Tickable(w: World, h: Handle, k: int, newId: MigrationId) {
    Active(w.game, h) && w.game.bodies[h].id == k && newId !in w.exporter.inFlight && IdUnsent(w, newId)
  }

  lemma DueIsFree(w: World, k: int, c: Cooldown)
    requires k in w.exporter.cooldowns && w.exporter.cooldowns[k] == c && !c.permanent
    requires w.game.simTime == Due(w, k, c)
    ensures !HasImmunity(w.importer, w.game.simTime, k).0 && !Unblocked(w.exporter, w.game.simTime, k, true).0
  {
  }

  /** Once the time is up, a tick of the organism on its way out by another edge exports it. */
  lemma LeavingTickFrees(w: World, k: int, c: Cooldown, f: Edge, t: Tick)
    requires k != 0 && !IsInFlight(w, k) && k in w.exporter.cooldowns && w.exporter.cooldowns[k] == c
    requires !c.permanent && w.game.simTime == Due(w, k, c) && Tickable(w, t.h, k, t.newId)
    requires ExportEdges.RankSorted(t.edges) && NoEdge !in t.edges && f in t.edges
    requires t.velocity.Some? && LeavesBy(t.geometry, c.edge, f, t.position, t.velocity.value)
    requires t == LeavingTick(t.h, t.position, t.velocity.value, t.edges, t.geometry, t.newId)
    ensures Possible(w, Ticks(t)) && Captures(w, t) && Begins(w, t.h, t.probe)
  {
    DueIsFree(w, k, c);
    assert ClearOfCooldown(w.exporter, k, t.geometry, t.position);
    assert f in t.edges && Candidate(SightOf(t), f);
  }

  lemma FramesOfOne(f: Frame, k: int)
    requires f.MigrateOut? && f.out.entityId == k
    ensures FramesOf([f], k) == [f]
  {
    assert FramesOf([f][1..], k) == [];
  }

  lemma LeavingTickExports(w: World, k: int, c: Cooldown, f: Edge, t: Tick)
    requires Cooling(w, k, c) && !c.permanent && w.game.simTime == Due(w, k, c) && Tickable(w, t.h, k, t.newId)
    requires ExportEdges.RankSorted(t.edges) && NoEdge !in t.edges && f in t.edges
    requires t.velocity.Some? && LeavesBy(t.geometry, c.edge, f, t.position, t.velocity.value)
    requires t == LeavingTick(t.h, t.position, t.velocity.value, t.edges, t.geometry, t.newId)
    ensures Possible(w, Ticks(t)) && FramesOf(Next(w, Ticks(t)).sent, k) != FramesOf(w.sent, k)
  {
    assert k != 0 by { assert GameOk(w.game); }
    LeavingTickFrees(w, k, c, f, t);
    TickExportsIff(w, t);
    var sent := MigrateOut(OutFrame(0, t.newId, k, ChosenIn(t), ""));
    FramesOfAppend(w.sent, [sent], k);
    FramesOfOne(sent, k);
  }

  /** One way out: wait until the time is up, then be in another declared band, moving out. */
  ghost function WayOut(w: World, k: int, c: Cooldown, t: Tick): seq<Event> {
    [Does(Elapse(Due(w, k, c))), Ticks(t)]
  }

  lemma WaitingHelps(w: World, k: int, c: Cooldown, h: Handle, newId: MigrationId)
    requires Tickable(w, h, k, newId)
    ensures var later := Apply(w, Elapse(Due(w, k, c)));
      Tickable(later, h, k, newId) && later.game.simTime == Due(later, k, c)
  {
  }

  lemma TwoEvents(w: World, a: Event, b: Event, k: int)
    requires Possible(w, a) && Possible(Next(w, a), b) && Undisturbed(a, k) && Undisturbed(b, k)
    ensures Proper(w, [a, b], k) && Before(w, [a, b], k, 2) == Next(Next(w, a), b)
  {
    assert [a, b][1..] == [b] && [b][1..] == [];
    assert Proper(Next(w, a), [b], k);
    assert Before(Next(w, a), [b], k, 1) == Before(Next(Next(w, a), b), [], k, 0);
  }

  /** Does the run send a frame of the organism? */
  ghost predicate ExportedIn(w: World, evs: seq<Event>, k: int)
    requires Proper(w, evs, k)
  {
    FramesOf(Before(w, evs, k, |evs|).sent, k) != FramesOf(w.sent, k)
  }

  lemma LeavesByAnother(w: World, k: int, c: Cooldown, f: Edge, t: Tick)
    requires Cooling(w, k, c) && !c.permanent && Tickable(w, t.h, k, t.newId)
    requires ExportEdges.RankSorted(t.edges) && NoEdge !in t.edges && f in t.edges
    requires t.velocity.Some? && LeavesBy(t.geometry, c.edge, f, t.position, t.velocity.value)
    requires t == LeavingTick(t.h, t.position, t.velocity.value, t.edges, t.geometry, t.newId)
    ensures var evs := WayOut(w, k, c, t);
      Proper(w, evs, k) && Sees(evs, t.edges, t.geometry) && ExportedIn(w, evs, k)
  {
    var op := Elapse(Due(w, k, c));
    OtherStep(w, op, k, c);
    WaitingHelps(w, k, c, t.h, t.newId);
    LeavingTickExports(Apply(w, op), k, c, f, t);
    TwoEvents(w, Does(op), Ticks(t), k);
  }

  lemma SomeSpotLeaves(g: Geometry, e: Edge, f: Edge) returns (spot: Vec, v: Vec)
    requires e != NoEdge && f != NoEdge && e != f
    ensures LeavesBy(g, e, f, spot, v)
  {
    spot, v := EscapeSpot(g, e, f), OutwardNormal(f);
    EscapeSpotEscapes(g, e, f);
    assert OutwardComponent(f, v) == 1.0;
  }

  lemma SomeWayOut(
      w: World, k: int, c: Cooldown, h: Handle, edges: seq<Edge>, g: Geometry, newId: MigrationId, f: Edge)
      returns (evs: seq<Event>)
    requires Cooling(w, k, c) && !c.permanent && c.edge != NoEdge && Tickable(w, h, k, newId)
    requires ExportEdges.RankSorted(edges) && NoEdge !in edges && f in edges && f != c.edge
    ensures Proper(w, evs, k) && Sees(evs, edges, g) && ExportedIn(w, evs, k)
  {
    var spot, v := SomeSpotLeaves(g, c.edge, f);
    var t := LeavingTick(h, spot, v, edges, g, newId);
    evs := WayOut(w, k, c, t);
    LeavesByAnother(w, k, c, f, t);
  }

  /** A refused organism can be exported again, in some run under this configuration, exactly
      when an edge other than the one that refused it is declared. */
  lemma ExportedAgainIff(w: World, k: int, c: Cooldown, h: Handle, edges: seq<Edge>, g: Geometry, newId: MigrationId)
    requires Cooling(w, k, c) && !c.permanent && c.requireExit && c.edge != NoEdge && Tickable(w, h, k, newId)
    requires ExportEdges.RankSorted(edges) && NoEdge !in edges
    ensures (exists evs :: Proper(w, evs, k) && Sees(evs, edges, g) && ExportedIn(w, evs, k))
       <==> exists f :: f in edges && f != c.edge
  {
    if f :| f in edges && f != c.edge {
      var _ := SomeWayOut(w, k, c, h, edges, g, newId, f);
    } else {
      forall evs | Proper(w, evs, k) && Sees(evs, edges, g) ensures !ExportedIn(w, evs, k) {
        OneEdgeNeverReleases(w, evs, k, c);
      }
    }
  }

  /** The same for the release alone: its exact condition on the configuration. */
  lemma CanBeReleasedIff(w: World, k: int, c: Cooldown, h: Handle, edges: seq<Edge>, g: Geometry, newId: MigrationId)
    requires Cooling(w, k, c) && !c.permanent && c.requireExit && c.edge != NoEdge && Tickable(w, h, k, newId)
    requires ExportEdges.RankSorted(edges) && NoEdge !in edges
    ensures (exists evs :: Proper(w, evs, k) && Sees(evs, edges, g) && Releases(w, evs, k, c))
       <==> exists f :: f in edges && f != c.edge
  {
    if f :| f in edges && f != c.edge {
      var evs := SomeWayOut(w, k, c, h, edges, g, newId, f);
      if !Releases(w, evs, k, c) { NothingUntilReleased(w, evs, k, c); }
    } else {
      forall evs | Proper(w, evs, k) && Sees(evs, edges, g) ensures !Releases(w, evs, k, c) {
        OneEdgeNeverReleases(w, evs, k, c);
      }
    }
  }

  // ---- a newcomer ----------------------------------------------------------------------

  /** An organism with an immunity window that ends at `until`, and not in flight. */
  ghost predicate Immune(w: World, k: int, until: real) {
    Inv(w) && !IsInFlight(w, k) && k in w.importer.immunity && w.importer.immunity[k] == until
  }

  lemma TickOfImmune(w: World, t: Tick, k: int)
    requires WellFormed(w.game, t) && w.game.bodies[t.h].id == k
    requires k in w.importer.immunity && w.game.simTime < w.importer.immunity[k]
    ensures AfterTick(w, t) == w
  {
  }

  lemma ImmunityOfAnother(w: World, t: Tick, k: int)
    requires WellFormed(w.game, t) && w.game.bodies[t.h].id != k && k in w.importer.immunity
    ensures var i := AfterTick(w, t).importer.immunity; k in i && i[k] == w.importer.immunity[k]
  {
  }

  lemma ImmuneTick(w: World, t: Tick, k: int, until: real)
    requires Immune(w, k, until) && Possible(w, Ticks(t)) && w.game.simTime < until
    ensures Immune(AfterTick(w, t), k, until) && FramesOf(AfterTick(w, t).sent, k) == FramesOf(w.sent, k)
  {
    if w.game.bodies[t.h].id == k {
      TickOfImmune(w, t, k);
    } else {
      TickKeeps(w, t);
      TickOfAnother(w, t, k);
      ImmunityOfAnother(w, t, k);
    }
  }

  lemma ImmuneStep(w: World, op: Op, k: int, until: real)
    requires Immune(w, k, until) && Possible(w, Does(op)) && Undisturbed(Does(op), k) && w.game.simTime < until
    ensures Immune(Apply(w, op), k, until) && FramesOf(Apply(w, op).sent, k) == FramesOf(w.sent, k)
  {
    StepKeeps(w, op);
    StepSpares(w, op, k);
  }

  /** The clock reads less than `until` before every event of the run. */
  ghost predicate AllBefore(w: World, evs: seq<Event>, k: int, until: real)
    requires Proper(w, evs, k)
  {
    forall i: nat | i < |evs| :: Before(w, evs, k, i).game.simTime < until
  }

  lemma AllBeforeTail(w: World, evs: seq<Event>, k: int, until: real)
    requires Proper(w, evs, k) && evs != [] && AllBefore(w, evs, k, until)
    ensures w.game.simTime < until && AllBefore(Next(w, evs[0]), evs[1..], k, until)
  {
    assert Before(w, evs, k, 0) == w;
    forall i: nat | i < |evs[1..]| ensures Before(Next(w, evs[0]), evs[1..], k, i).game.simTime < until {
      assert Before(w, evs, k, i + 1) == Before(Next(w, evs[0]), evs[1..], k, i);
    }
  }

  lemma ImmuneEvent(w: World, ev: Event, k: int, until: real)
    requires Immune(w, k, until) && Possible(w, ev) && Undisturbed(ev, k) && w.game.simTime < until
    ensures Immune(Next(w, ev), k, until) && FramesOf(Next(w, ev).sent, k) == FramesOf(w.sent, k)
  {
    match ev
    case Ticks(t) => ImmuneTick(w, t, k, until);
    case Does(op) => ImmuneStep(w, op, k, until);
  }

  lemma BeforeTail(w: World, evs: seq<Event>, k: int)
    requires Proper(w, evs, k) && evs != []
    ensures Before(w, evs, k, |evs|) == Before(Next(w, evs[0]), evs[1..], k, |evs[1..]|)
  {
  }

  lemma {:induction false} ImmuneStays(w: World, evs: seq<Event>, k: int, until: real)
    requires Proper(w, evs, k) && Immune(w, k, until) && AllBefore(w, evs, k, until)
    ensures var m := Before(w, evs, k, |evs|); Immune(m, k, until) && FramesOf(m.sent, k) == FramesOf(w.sent, k)
    decreases |evs|
  {
    if evs != [] {
      AllBeforeTail(w, evs, k, until);
      ImmuneEvent(w, evs[0], k, until);
      BeforeTail(w, evs, k);
      ImmuneStays(Next(w, evs[0]), evs[1..], k, until);
    }
  }

  lemma StoodIsOut(w: World, data: InData, env: InEnv)
    requires Stood(w, data, env)
    ensures !IsInFlight(HandleIn(w, data, env), EntityOf(data))
  {
  }

  lemma ArrivesImmune(w: World, data: InData, env: InEnv)
    requires Inv(w) && Allowed(w, In(data, env)) && Stood(w, data, env)
    ensures Immune(HandleIn(w, data, env), EntityOf(data), w.game.simTime + ENTRY_IMMUNITY_SECONDS)
  {
    StoodIsImmune(w, data, env);
    StoodIsOut(w, data, env);
    StepKeeps(w, In(data, env));
  }

  /** A newcomer is not captured inside its immunity window: however it moves, and whatever else
      happens between its arrival and the end of the window, no frame of it is sent. */
  lemma NewcomerStays(w: World, data: InData, env: InEnv, evs: seq<Event>)
    requires Inv(w) && Allowed(w, In(data, env)) && Stood(w, data, env)
    requires Proper(HandleIn(w, data, env), evs, EntityOf(data))
    requires AllBefore(HandleIn(w, data, env), evs, EntityOf(data), w.game.simTime + ENTRY_IMMUNITY_SECONDS)
    ensures var k := EntityOf(data); var m := Before(HandleIn(w, data, env), evs, k, |evs|);
      !IsInFlight(m, k) && FramesOf(m.sent, k) == FramesOf(w.sent, k)
  {
    ArrivesImmune(w, data, env);
    AnswersAreNoExports(w, data, env, EntityOf(data));
    ImmuneStays(HandleIn(w, data, env), evs, EntityOf(data), w.game.simTime + ENTRY_IMMUNITY_SECONDS);
  }
}
