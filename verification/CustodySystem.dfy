/** Several worlds and one sidecar side of the wire. The transport is adversarial: a letter the
    sidecar has posted may be handled never, once or many times, at any later moment and in any
    order, and the sidecar may act on a frame long after it was sent. The theorem is that no
    reachable state runs two copies of one organism. */
module CustodySystem {
  import opened ContractA
  import opened Worlds
  import opened LocalCustody

  /** What the sidecars have made of one migration id: refused at the origin, or journaled for
      exactly one destination (which is the origin itself for a bounce-back). */
  datatype Decision = Refused | Journaled(dest: nat)

  datatype Letter =
    | AckLetter(id: MigrationId, entityId: int)
    | NackLetter(id: MigrationId, permanent: bool, retryAfterMs: Option<int>)
    | InLetter(data: InData)

  /** One MIGRATE_OUT as it was begun: the world it left and the frame that went out. */
  datatype Mint = Mint(origin: nat, frame: OutFrame)

  /** `minted` and `everIds` are history: every migration ever begun, every organism id ever used. */
  datatype System = System(
    worlds: seq<World>, sessions: seq<string>,
    wire: set<(nat, Letter)>, decisions: map<MigrationId, Decision>,
    minted: map<MigrationId, Mint>, everIds: set<int>)

  datatype Step =
    | Act(world: nat, op: Op)
    | Post(world: nat, letter: Letter)
    | Decide(id: MigrationId, decision: Decision)

  // ---- what the environment may do -----------------------------------------------------

  /** The sidecar's promises. A NACK is only ever for a refused id, a MIGRATE_IN only for a
      journaled id, at its one destination, naming the organism the frame named. Nothing at all
      is assumed about ACKs: any ACK may be posted to any world at any time. */
  ghost predicate Justified(s: System, world: nat, letter: Letter) {
    match letter
    case AckLetter(_, _) => true
    case NackLetter(id, _, _) => id in s.decisions && s.decisions[id] == Refused
    case InLetter(data) =>
      UsableId(data) ==>
        && data.migrationId.value in s.decisions && s.decisions[data.migrationId.value] == Journaled(world)
        && data.migrationId.value in s.minted
        && (data.entityId.Some? ==> data.entityId.value == s.minted[data.migrationId.value].frame.entityId)
  }

  /** The letter an operation of a world handles must be on the wire to that world. */
  ghost predicate Delivered(s: System, world: nat, op: Op) {
    match op
    case Ack(id, e) => (world, AckLetter(id, e)) in s.wire
    case Nack(id, permanent, retry) => (world, NackLetter(id, permanent, retry)) in s.wire
    case In(data, _) => (world, InLetter(data)) in s.wire
    case NackIn(data, _) => (world, InLetter(data)) in s.wire
    case _ => true
  }

  /** Is this id in no world's dedup ledger? */
  ghost predicate Unremembered(s: System, id: MigrationId) {
    forall i | 0 <= i < |s.worlds| :: Fold(id) !in s.worlds[i].importer.seen
  }

  ghost predicate Enabled(s: System, step: Step) {
    match step
    case Act(i, op) =>
      && i < |s.worlds| == |s.sessions| && Allowed(s.worlds[i], op) && Delivered(s, i, op)
      && (op.Begin? ==> op.newId !in s.minted && Fold(op.newId) == op.newId && Unremembered(s, op.newId))
      && (op.Born? ==> op.newborn !in s.everIds)
      && (op.Handshake? ==> op.session == s.sessions[i])
    case Post(i, letter) => Justified(s, i, letter)
    case Decide(id, decision) =>
      && id in s.minted && id !in s.decisions
      && (decision.Journaled? ==> decision.dest < |s.worlds|)
  }

  ghost function Minted(s: System, i: nat, op: Op): map<MigrationId, Mint>
    requires i < |s.worlds| && Allowed(s.worlds[i], op)
  {
    var w := s.worlds[i];
    if op.Begin? && Begins(w, op.h, op.probe)
    then s.minted[op.newId := Mint(i, Apply(w, op).exporter.inFlight[op.newId].frame)] else s.minted
  }

  ghost function Next(s: System, step: Step): System
    requires Enabled(s, step)
  {
    match step
    case Act(i, op) =>
      s.(worlds := s.worlds[i := Apply(s.worlds[i], op)],
         minted := Minted(s, i, op),
         everIds := if op.Born? then s.everIds + {op.newborn} else s.everIds)
    case Post(i, letter) => s.(wire := s.wire + {(i, letter)})
    case Decide(id, decision) => s.(decisions := s.decisions[id := decision])
  }

  // ---- custody as a token --------------------------------------------------------------

  datatype Holder = InBody(world: nat, h: Handle) | InMint(id: MigrationId)

  /** A body holds its organism when it runs, or when it is frozen under a refused id. */
  ghost predicate BodyHolds(w: World, decisions: map<MigrationId, Decision>, h: Handle, e: int) {
    && Usable(w.game, h) && w.game.bodies[h].id == e
    && (w.game.bodies[h].enabled
        || (&& e in w.exporter.byEntity && w.exporter.byEntity[e] in decisions
            && decisions[w.exporter.byEntity[e]] == Refused))
  }

  /** A migration holds its organism while undecided, and once journaled until its destination
      has remembered it. */
  ghost predicate MintHolds(s: System, id: MigrationId, e: int) {
    && id in s.minted && s.minted[id].frame.entityId == e
    && (id !in s.decisions
        || (&& s.decisions[id].Journaled? && s.decisions[id].dest < |s.worlds|
            && Fold(id) !in s.worlds[s.decisions[id].dest].importer.seen))
  }

  ghost predicate Holds(s: System, k: Holder, e: int) {
    match k
    case InBody(i, h) => i < |s.worlds| && BodyHolds(s.worlds[i], s.decisions, h, e)
    case InMint(id) => MintHolds(s, id, e)
  }

  ghost predicate Unique(s: System) {
    forall k, l, e | Holds(s, k, e) && Holds(s, l, e) :: k == l
  }

  // ---- the invariant -------------------------------------------------------------------

  ghost predicate WorldOk(s: System, i: nat)
    requires i < |s.worlds| == |s.sessions|
  {
    var w := s.worlds[i];
    && Inv(w)
    && w.importer.ledgerSession == Some(s.sessions[i])
    && (forall h | Usable(w.game, h) :: w.game.bodies[h].id in s.everIds)
    && (forall f | f in w.sent && f.MigrateOut? ::
          f.out.migrationId in s.minted && s.minted[f.out.migrationId] == Mint(i, f.out))
  }

  ghost predicate HistoryOk(s: System) {
    && (forall id | id in s.minted :: Fold(id) == id && s.minted[id].frame.entityId in s.everIds)
    && (forall id | id in s.decisions ::
          id in s.minted && (s.decisions[id].Journaled? ==> s.decisions[id].dest < |s.worlds|))
    && (forall i, letter | (i, letter) in s.wire :: Justified(s, i, letter))
  }

  /** A migration is remembered only by the world it was journaled for. */
  ghost predicate RememberedOk(s: System, id: MigrationId, i: nat) {
    i < |s.worlds| && id in s.minted && Fold(id) in s.worlds[i].importer.seen ==>
      id in s.decisions && s.decisions[id] == Journaled(i)
  }

  ghost predicate LedgersOk(s: System) {
    forall id, i: nat :: RememberedOk(s, id, i)
  }

  ghost predicate SysInv(s: System) {
    && |s.worlds| == |s.sessions|
    && (forall i | 0 <= i < |s.worlds| :: WorldOk(s, i))
    && HistoryOk(s)
    && LedgersOk(s)
    && Unique(s)
  }

  // ---- moving the token ----------------------------------------------------------------

  lemma MoveKeepsUnique(s: System, s': System, from: Holder, to: Holder, e: int)
    requires Unique(s) && Holds(s, from, e)
    requires forall k, f | Holds(s', k, f) :: (k == to && f == e) || (Holds(s, k, f) && !(k == from && f == e))
    ensures Unique(s')
  {
    forall k, l, f | Holds(s', k, f) && Holds(s', l, f) ensures k == l {
      if f == e {
        assert k == to || (Holds(s, k, e) && k != from);
        assert l == to || (Holds(s, l, e) && l != from);
      }
    }
  }

  /** The other worlds, and what does not depend on world `i`, are untouched by an operation. */
  lemma ElsewhereSame(s: System, i: nat, op: Op, k: Holder, e: int)
    requires SysInv(s) && Enabled(s, Act(i, op)) && Holds(Next(s, Act(i, op)), k, e)
    requires k.InBody? ==> k.world != i
    requires k.InMint? ==> k.id in s.minted && s.worlds[i].importer.seen <= Apply(s.worlds[i], op).importer.seen
    requires Minted(s, i, op) != s.minted ==> op.newId !in s.minted
    ensures Holds(s, k, e)
  {
  }

  lemma RecordsKnown(s: System, i: nat, id: MigrationId)
    requires SysInv(s) && i < |s.worlds| && id in s.worlds[i].exporter.inFlight
    ensures id in s.minted && s.minted[id] == Mint(i, s.worlds[i].exporter.inFlight[id].frame)
  {
    var w := s.worlds[i];
    assert WorldOk(s, i) && RecordOk(w, id);
    assert MigrateOut(w.exporter.inFlight[id].frame) in w.sent;
  }

  // ---- bodies, operation by operation --------------------------------------------------

  lemma BeginBodies(w: World, d: map<MigrationId, Decision>, op: Op, h: Handle, e: int)
    requires Inv(w) && op.Begin? && Allowed(w, op) && Begins(w, op.h, op.probe) && op.newId !in d
    requires BodyHolds(Apply(w, op), d, h, e)
    ensures BodyHolds(w, d, h, e) && h != op.h
  {
    RetireKeeps(w.game, op.h);
    if h != op.h && !w.game.bodies[h].enabled {
      assert Frozen(w.game, h) && BoundTo(w, h, w.exporter.byEntity[w.game.bodies[h].id]);
    }
  }

  lemma AckBodies(w: World, d: map<MigrationId, Decision>, id: MigrationId, f: int, h: Handle, e: int)
    requires Inv(w) && BodyHolds(HandleAck(w, id, f), d, h, e)
    ensures BodyHolds(w, d, h, e)
  {
    if id in w.exporter.inFlight {
      assert RecordOk(w, id);
      RetireKeeps(w.game, w.exporter.inFlight[id].body);
    } else {
      FindIsExact(w.game, f);
      if FindBodyById(w.game, f).Some? { RetireKeeps(w.game, FindBodyById(w.game, f).value); }
    }
  }

  lemma NackBodies(w: World, d: map<MigrationId, Decision>, id: MigrationId, permanent: bool, retry: Option<int>,
        h: Handle, e: int)
    requires Inv(w) && id in d && d[id] == Refused && BodyHolds(HandleNack(w, id, permanent, retry), d, h, e)
    ensures BodyHolds(w, d, h, e)
  {
    if id in w.exporter.inFlight {
      assert RecordOk(w, id);
      ReviveKeeps(w.game, w.exporter.inFlight[id].body);
    }
  }

  lemma InBodies(w: World, d: map<MigrationId, Decision>, data: InData, env: InEnv, h: Handle, e: int)
    requires Inv(w) && Allowed(w, In(data, env)) && BodyHolds(HandleIn(w, data, env), d, h, e)
    ensures
      || BodyHolds(w, d, h, e)
      || (&& HandleIn(w, data, env).game != w.game && env.restore.relinked
          && h == env.restore.handle && e == EntityOf(data))
  {
    InShape(w, data, env);
    if HandleIn(w, data, env).game != w.game {
      DedupIsComplete(w, EntityOf(data));
      StandKeeps(w.game, env.restore.handle, EntityOf(data));
      RetireKeeps(Stand(w.game, env.restore.handle, EntityOf(data)), env.restore.handle);
    }
  }

  lemma RetireBodies(w: World, d: map<MigrationId, Decision>, b: Handle, h: Handle, e: int)
    requires Inv(w) && Usable(w.game, b) && BodyHolds(w.(game := DestroyCleanly(w.game, b)), d, h, e)
    ensures BodyHolds(w, d, h, e)
  {
    RetireKeeps(w.game, b);
  }

  // ---- each step keeps the token unique ------------------------------------------------

  lemma BeginUnique(s: System, i: nat, op: Op)
    requires SysInv(s) && Enabled(s, Act(i, op)) && op.Begin? && Begins(s.worlds[i], op.h, op.probe)
    ensures Unique(Next(s, Act(i, op)))
  {
    var w, s' := s.worlds[i], Next(s, Act(i, op));
    var e := w.game.bodies[op.h].id;
    assert WorldOk(s, i);
    assert op.newId !in s.decisions;
    assert Holds(s, InBody(i, op.h), e);
    forall k, f | Holds(s', k, f)
      ensures (k == InMint(op.newId) && f == e) || (Holds(s, k, f) && !(k == InBody(i, op.h) && f == e))
    {
      if k.InBody? && k.world == i {
        BeginBodies(w, s.decisions, op, k.h, f);
      } else if k != InMint(op.newId) {
        ElsewhereSame(s, i, op, k, f);
      }
    }
    MoveKeepsUnique(s, s', InBody(i, op.h), InMint(op.newId), e);
  }

  /** An operation that neither begins, spawns nor gives birth only ever loses holders. */
  lemma PlainUnique(s: System, i: nat, op: Op)
    requires SysInv(s) && Enabled(s, Act(i, op))
    requires !op.In? && !op.Born? && !(op.Begin? && Begins(s.worlds[i], op.h, op.probe))
    ensures Unique(Next(s, Act(i, op)))
  {
    var s' := Next(s, Act(i, op));
    forall k, f | Holds(s', k, f) ensures Holds(s, k, f) {
      if k.InBody? && k.world == i {
        PlainBodies(s, i, op, k.h, f);
      } else {
        PlainElsewhere(s, i, op, k, f);
      }
    }
  }

  lemma PlainElsewhere(s: System, i: nat, op: Op, k: Holder, f: int)
    requires SysInv(s) && Enabled(s, Act(i, op)) && Holds(Next(s, Act(i, op)), k, f)
    requires !op.In? && !op.Born? && !(op.Begin? && Begins(s.worlds[i], op.h, op.probe))
    requires k.InBody? ==> k.world != i
    ensures Holds(s, k, f)
  {
    assert WorldOk(s, i);
    ElsewhereSame(s, i, op, k, f);
  }

  /** Operations that touch no body and no table of frozen ones. */
  lemma IdleBodies(w: World, d: map<MigrationId, Decision>, op: Op, h: Handle, f: int)
    requires Allowed(w, op) && BodyHolds(Apply(w, op), d, h, f)
    requires !op.In? && !op.Born? && !op.Ack? && !op.Nack? && !op.Dies? && !(op.Begin? && Begins(w, op.h, op.probe))
    ensures BodyHolds(w, d, h, f)
  {
  }

  lemma PlainBodies(s: System, i: nat, op: Op, h: Handle, f: int)
    requires SysInv(s) && Enabled(s, Act(i, op)) && BodyHolds(Apply(s.worlds[i], op), s.decisions, h, f)
    requires !op.In? && !op.Born? && !(op.Begin? && Begins(s.worlds[i], op.h, op.probe))
    ensures BodyHolds(s.worlds[i], s.decisions, h, f)
  {
    var w := s.worlds[i];
    assert WorldOk(s, i);
    match op
    case Ack(id, e) => AckBodies(w, s.decisions, id, e, h, f);
    case Nack(id, permanent, retry) =>
      assert Justified(s, i, NackLetter(id, permanent, retry));
      NackBodies(w, s.decisions, id, permanent, retry, h, f);
    case Dies(b) => RetireBodies(w, s.decisions, b, h, f);
    case _ => IdleBodies(w, s.decisions, op, h, f);
  }

  lemma BornUnique(s: System, i: nat, op: Op)
    requires SysInv(s) && Enabled(s, Act(i, op)) && op.Born?
    ensures Unique(Next(s, Act(i, op)))
  {
    var w, s' := s.worlds[i], Next(s, Act(i, op));
    assert WorldOk(s, i);
    StandKeeps(w.game, op.h, op.newborn);
    forall k, f | Holds(s', k, f) ensures Holds(s, k, f) || (k == InBody(i, op.h) && f == op.newborn) {
      if !(k.InBody? && k.world == i) { ElsewhereSame(s, i, op, k, f); }
    }
    forall k ensures !Holds(s, k, op.newborn) {
      if k.InBody? && k.world < |s.worlds| { assert WorldOk(s, k.world); }
    }
  }

  lemma InUnique(s: System, i: nat, op: Op)
    requires SysInv(s) && Enabled(s, Act(i, op)) && op.In?
    ensures Unique(Next(s, Act(i, op)))
  {
    var w, w', s' := s.worlds[i], Apply(s.worlds[i], op), Next(s, Act(i, op));
    var e := EntityOf(op.data);
    assert WorldOk(s, i) && Justified(s, i, InLetter(op.data));
    InShape(w, op.data, op.env);
    if w'.game != w.game && op.env.restore.relinked {
      var m, h := op.data.migrationId.value, op.env.restore.handle;
      assert Holds(s, InMint(m), e);
      assert !Holds(s', InMint(m), e);
      forall k, f | Holds(s', k, f)
        ensures (k == InBody(i, h) && f == e) || (Holds(s, k, f) && !(k == InMint(m) && f == e))
      {
        if k.InBody? && k.world == i { InBodies(w, s.decisions, op.data, op.env, k.h, f); }
        else { ElsewhereSame(s, i, op, k, f); }
      }
      MoveKeepsUnique(s, s', InMint(m), InBody(i, h), e);
    } else {
      forall k, f | Holds(s', k, f) ensures Holds(s, k, f) {
        if k.InBody? && k.world == i { InBodies(w, s.decisions, op.data, op.env, k.h, f); }
        else { ElsewhereSame(s, i, op, k, f); }
      }
    }
  }

  lemma DecideUnique(s: System, id: MigrationId, decision: Decision)
    requires SysInv(s) && Enabled(s, Decide(id, decision))
    ensures Unique(Next(s, Decide(id, decision)))
  {
    var s', m := Next(s, Decide(id, decision)), s.minted[id];
    var e := m.frame.entityId;
    assert Holds(s, InMint(id), e);
    if decision.Journaled? {
      assert forall k, f | Holds(s', k, f) :: Holds(s, k, f);
    } else {
      // The token goes back to the frozen body, if it is still there.
      var to := if m.origin < |s.worlds| && id in s.worlds[m.origin].exporter.inFlight
                then InBody(m.origin, s.worlds[m.origin].exporter.inFlight[id].body) else InMint(id);
      forall k, f | Holds(s', k, f)
        ensures (k == to && f == e) || (Holds(s, k, f) && !(k == InMint(id) && f == e))
      {
        if !Holds(s, k, f) { RefusedBody(s, id, k, f); }
      }
      MoveKeepsUnique(s, s', InMint(id), to, e);
    }
  }

  /** The one body a refusal can newly entitle: the one frozen under that id, at its origin. */
  lemma RefusedBody(s: System, id: MigrationId, k: Holder, f: int)
    requires SysInv(s) && Enabled(s, Decide(id, Refused))
    requires Holds(Next(s, Decide(id, Refused)), k, f) && !Holds(s, k, f)
    ensures k.InBody? && k.world == s.minted[id].origin < |s.worlds|
    ensures BoundTo(s.worlds[k.world], k.h, id) && f == s.minted[id].frame.entityId
  {
    var w := s.worlds[k.world];
    assert WorldOk(s, k.world);
    assert Frozen(w.game, k.h) && w.exporter.byEntity[f] == id;
    assert BoundTo(w, k.h, id) && RecordOk(w, id);
    RecordsKnown(s, k.world, id);
  }

  // ---- each step keeps the rest --------------------------------------------------------

  lemma ActKeepsWorld(s: System, i: nat, op: Op)
    requires SysInv(s) && Enabled(s, Act(i, op))
    ensures WorldOk(Next(s, Act(i, op)), i)
  {
    var w, s' := s.worlds[i], Next(s, Act(i, op));
    assert WorldOk(s, i);
    StepKeeps(w, op);
    var w' := s'.worlds[i];
    SentKnown(s, i, op);
    forall h | Usable(w'.game, h) ensures w'.game.bodies[h].id in s'.everIds {
      if h in w.game.bodies && w.game.bodies[h].id == w'.game.bodies[h].id && Usable(w.game, h) {
      } else {
        NewBody(s, i, op, h);
      }
    }
  }

  lemma SentKnown(s: System, i: nat, op: Op)
    requires SysInv(s) && Enabled(s, Act(i, op))
    ensures var s' := Next(s, Act(i, op));
      && s'.worlds[i].importer.ledgerSession == Some(s.sessions[i])
      && forall f | f in s'.worlds[i].sent && f.MigrateOut? ::
           f.out.migrationId in s'.minted && s'.minted[f.out.migrationId] == Mint(i, f.out)
  {
    var w, s' := s.worlds[i], Next(s, Act(i, op));
    assert WorldOk(s, i);
    SentShape(w, op);
    LedgerStays(w, op, s.sessions[i]);
  }

  /** Every MIGRATE_OUT of a step was sent before, or is the one a capture just minted. */
  lemma SentShape(w: World, op: Op)
    requires Inv(w) && Allowed(w, op)
    ensures var w' := Apply(w, op);
      forall f | f in w'.sent && f.MigrateOut? ::
        f in w.sent || (op.Begin? && Begins(w, op.h, op.probe) && f == MigrateOut(w'.exporter.inFlight[op.newId].frame)
                        && f.out.migrationId == op.newId)
  {
    if op.Replay? { ReplaySendsKnown(w, op.order, op.realtime); }
  }

  lemma LedgerStays(w: World, op: Op, session: string)
    requires Allowed(w, op) && w.importer.ledgerSession == Some(session) && (op.Handshake? ==> op.session == session)
    ensures Apply(w, op).importer.ledgerSession == Some(session)
  {
  }

  /** Only a birth or an arrival makes a body usable under an id it did not have. */
  lemma OthersMakeNoBody(w: World, op: Op, h: Handle)
    requires Inv(w) && Allowed(w, op) && !op.In? && !op.Born? && Usable(Apply(w, op).game, h)
    ensures Usable(w.game, h) && w.game.bodies[h].id == Apply(w, op).game.bodies[h].id
  {
    match op
    case Ack(id, e) => AckMakesNoBody(w, id, e, h);
    case Nack(id, permanent, retry) =>
    case Begin(b, edge, probe, newId, messageId, realtime) =>
      BeginMakesNoBody(w, b, edge, probe, newId, messageId, realtime, h);
    case Dies(b) =>
    case _ =>
  }

  lemma AckMakesNoBody(w: World, id: MigrationId, e: int, h: Handle)
    requires Inv(w) && Usable(HandleAck(w, id, e).game, h)
    ensures Usable(w.game, h) && w.game.bodies[h].id == HandleAck(w, id, e).game.bodies[h].id
  {
  }

  lemma BeginMakesNoBody(
      w: World, b: Handle, edge: Edge, probe: Probe, newId: MigrationId, messageId: nat, realtime: real, h: Handle)
    requires b in w.game.bodies && Usable(TryBegin(w, b, edge, probe, newId, messageId, realtime).game, h)
    ensures Usable(w.game, h)
    ensures w.game.bodies[h].id == TryBegin(w, b, edge, probe, newId, messageId, realtime).game.bodies[h].id
  {
  }

  /** A body that was not usable under its id before the step was born, or came off the wire. */
  lemma NewBody(s: System, i: nat, op: Op, h: Handle)
    requires SysInv(s) && Enabled(s, Act(i, op))
    requires var w, w' := s.worlds[i], Apply(s.worlds[i], op);
      Usable(w'.game, h) && !(Usable(w.game, h) && w.game.bodies[h].id == w'.game.bodies[h].id)
    ensures Apply(s.worlds[i], op).game.bodies[h].id in Next(s, Act(i, op)).everIds
  {
    var w := s.worlds[i];
    assert WorldOk(s, i);
    if op.In? {
      InShape(w, op.data, op.env);
      assert Justified(s, i, InLetter(op.data));
    } else if !op.Born? {
      OthersMakeNoBody(w, op, h);
    }
  }

  /** A ledger grows by the one id a delivery names, and by none in any other step. */
  lemma SeenGrows(w: World, op: Op, session: string)
    requires Allowed(w, op)
    requires w.importer.ledgerSession == Some(session) && (op.Handshake? ==> op.session == session)
    ensures Apply(w, op).importer.seen <=
            w.importer.seen + if op.In? && UsableId(op.data) then {Fold(op.data.migrationId.value)} else {}
  {
  }

  lemma ActKeepsLedgers(s: System, i: nat, op: Op)
    requires SysInv(s) && Enabled(s, Act(i, op))
    ensures LedgersOk(Next(s, Act(i, op)))
  {
    var s' := Next(s, Act(i, op));
    assert WorldOk(s, i);
    SeenGrows(s.worlds[i], op, s.sessions[i]);
    if op.In? { assert Justified(s, i, InLetter(op.data)); }
    forall id, j: nat ensures RememberedOk(s', id, j) {
      assert RememberedOk(s, id, j);
    }
  }

  lemma OthersKeepLedgers(s: System, step: Step)
    requires SysInv(s) && Enabled(s, step) && !step.Act?
    ensures LedgersOk(Next(s, step))
  {
    forall id, j: nat ensures RememberedOk(Next(s, step), id, j) {
      assert RememberedOk(s, id, j);
    }
  }

  lemma ActKeepsHistory(s: System, i: nat, op: Op)
    requires SysInv(s) && Enabled(s, Act(i, op))
    ensures HistoryOk(Next(s, Act(i, op)))
  {
    var s' := Next(s, Act(i, op));
    assert WorldOk(s, i);
    forall j, letter | (j, letter) in s'.wire ensures Justified(s', j, letter) {
      assert Justified(s, j, letter);
    }
  }

  lemma ActKeepsUnique(s: System, i: nat, op: Op)
    requires SysInv(s) && Enabled(s, Act(i, op))
    ensures Unique(Next(s, Act(i, op)))
  {
    if op.In? { InUnique(s, i, op); }
    else if op.Born? { BornUnique(s, i, op); }
    else if op.Begin? && Begins(s.worlds[i], op.h, op.probe) { BeginUnique(s, i, op); }
    else { PlainUnique(s, i, op); }
  }

  lemma ActKeepsWorlds(s: System, i: nat, op: Op)
    requires SysInv(s) && Enabled(s, Act(i, op))
    ensures forall j | 0 <= j < |Next(s, Act(i, op)).worlds| :: WorldOk(Next(s, Act(i, op)), j)
  {
    var s' := Next(s, Act(i, op));
    ActKeepsWorld(s, i, op);
    forall j | 0 <= j < |s'.worlds| ensures WorldOk(s', j) { assert WorldOk(s, j); }
  }

  lemma PostKeeps(s: System, world: nat, letter: Letter)
    requires SysInv(s) && Enabled(s, Post(world, letter))
    ensures SysInv(Next(s, Post(world, letter)))
  {
    var s' := Next(s, Post(world, letter));
    OthersKeepLedgers(s, Post(world, letter));
    forall j | 0 <= j < |s'.worlds| ensures WorldOk(s', j) { assert WorldOk(s, j); }
    forall i, posted | (i, posted) in s'.wire ensures Justified(s', i, posted) {
      assert Justified(s, i, posted);
    }
    assert forall k, e :: Holds(s', k, e) ==> Holds(s, k, e);
  }

  lemma DecideKeeps(s: System, id: MigrationId, decision: Decision)
    requires SysInv(s) && Enabled(s, Decide(id, decision))
    ensures SysInv(Next(s, Decide(id, decision)))
  {
    var s' := Next(s, Decide(id, decision));
    DecideUnique(s, id, decision);
    OthersKeepLedgers(s, Decide(id, decision));
    forall j | 0 <= j < |s'.worlds| ensures WorldOk(s', j) { assert WorldOk(s, j); }
    forall i, letter | (i, letter) in s'.wire ensures Justified(s', i, letter) {
      assert Justified(s, i, letter);
    }
  }

  lemma StepKeepsSystem(s: System, step: Step)
    requires SysInv(s) && Enabled(s, step)
    ensures SysInv(Next(s, step))
  {
    match step
    case Act(i, op) =>
      ActKeepsUnique(s, i, op);
      ActKeepsWorlds(s, i, op);
      ActKeepsHistory(s, i, op);
      ActKeepsLedgers(s, i, op);
    case Post(i, letter) => PostKeeps(s, i, letter);
    case Decide(id, decision) => DecideKeeps(s, id, decision);
  }

  // ---- every reachable state -----------------------------------------------------------

  ghost predicate Legal(s: System, steps: seq<Step>)
    decreases |steps|
  {
    steps == [] || (Enabled(s, steps[0]) && Legal(Next(s, steps[0]), steps[1..]))
  }

  ghost function Run(s: System, steps: seq<Step>): System
    requires Legal(s, steps)
    decreases |steps|
  {
    if steps == [] then s else Run(Next(s, steps[0]), steps[1..])
  }

  /** The start: every world armed and handshaken, nothing on the wire, no id used twice. */
  ghost predicate Init(s: System) {
    && |s.worlds| == |s.sessions|
    && (forall i | 0 <= i < |s.worlds| ::
          Armed(s.worlds[i]) && s.worlds[i].importer.ledgerSession == Some(s.sessions[i]))
    && s.wire == {} && s.decisions == map[] && s.minted == map[]
    && (forall i, h | 0 <= i < |s.worlds| && Usable(s.worlds[i].game, h) :: s.worlds[i].game.bodies[h].id in s.everIds)
    && (forall i, h, j, k | 0 <= i < |s.worlds| && 0 <= j < |s.worlds|
          && Usable(s.worlds[i].game, h) && Usable(s.worlds[j].game, k)
          && s.worlds[i].game.bodies[h].id == s.worlds[j].game.bodies[k].id :: i == j && h == k)
  }

  lemma InitOk(s: System)
    requires Init(s)
    ensures SysInv(s)
  {
    forall i | 0 <= i < |s.worlds| ensures WorldOk(s, i) {}
    forall k, l, e | Holds(s, k, e) && Holds(s, l, e) ensures k == l {
      assert k.InBody? && l.InBody?;
    }
  }

  lemma {:induction false} RunKeeps(s: System, steps: seq<Step>)
    requires SysInv(s) && Legal(s, steps)
    ensures SysInv(Run(s, steps))
    decreases |steps|
  {
    if steps != [] {
      StepKeepsSystem(s, steps[0]);
      RunKeeps(Next(s, steps[0]), steps[1..]);
    }
  }

  /** Under any loss, duplication, delay, reordering, timeout or reconnect, every reachable
      state runs at most one copy of each organism across all worlds. */
  lemma AtMostOneActiveCopy(s: System, steps: seq<Step>, i: nat, h: Handle, j: nat, k: Handle)
    requires Init(s) && Legal(s, steps)
    requires var r := Run(s, steps);
      && i < |r.worlds| && j < |r.worlds|
      && Active(r.worlds[i].game, h) && Active(r.worlds[j].game, k)
      && r.worlds[i].game.bodies[h].id == r.worlds[j].game.bodies[k].id
    ensures i == j && h == k
  {
    InitOk(s);
    RunKeeps(s, steps);
    var r := Run(s, steps);
    var e := r.worlds[i].game.bodies[h].id;
    assert Holds(r, InBody(i, h), e) && Holds(r, InBody(j, k), e);
  }

  /** The stronger form: custody of an organism is never split. While a migration of it is
      undecided, or journaled and not yet remembered where it goes, no world runs it and no
      other migration of it is open. */
  lemma CustodyIsExclusive(s: System, steps: seq<Step>, id: MigrationId)
    requires Init(s) && Legal(s, steps)
    requires id in Run(s, steps).minted && MintHolds(Run(s, steps), id, Run(s, steps).minted[id].frame.entityId)
    ensures var r := Run(s, steps); var e := r.minted[id].frame.entityId;
      && (forall i, h | 0 <= i < |r.worlds| && Active(r.worlds[i].game, h) :: r.worlds[i].game.bodies[h].id != e)
      && (forall other | MintHolds(r, other, e) :: other == id)
  {
    InitOk(s);
    RunKeeps(s, steps);
    var r := Run(s, steps);
    var e := r.minted[id].frame.entityId;
    assert Holds(r, InMint(id), e);
    forall i, h | 0 <= i < |r.worlds| && Active(r.worlds[i].game, h) ensures r.worlds[i].game.bodies[h].id != e {
      assert !Holds(r, InBody(i, h), e);
    }
    forall other | MintHolds(r, other, e) ensures other == id {
      assert Holds(r, InMint(other), e);
    }
  }
}
