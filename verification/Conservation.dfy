/** What becomes of an organism: over every run of the system exactly the steps named here leave
    it without a holder, and once it has none it never has one again. */
module Conservation {
  import opened ContractA
  import opened Worlds
  import opened CustodySystem
  import Local = LocalCustody

  ghost predicate Held(s: System, e: int) {
    exists k :: Holds(s, k, e)
  }

  // ---- the steps that lose an organism -------------------------------------------------

  /** The body an ACK destroys: that of its record, or whatever lives here under the id it names. */
  function AckTarget(w: World, id: MigrationId, entityId: int): Option<Handle> {
    if id in w.exporter.inFlight then Some(w.exporter.inFlight[id].body) else FindBodyById(w.game, entityId)
  }

  /** A delivery past every gate that is taken for a copy because the organism is still in flight
      here, as after a bounce back to its origin: it is remembered and nothing stands up. */
  predicate OnlyRemembered(w: World, data: InData, env: InEnv) {
    && UsableId(data) && Refusal(data, env).None? && Fold(data.migrationId.value) !in w.importer.seen
    && FindBodyById(w.game, EntityOf(data)).None? && IsInFlight(w, EntityOf(data))
  }

  /** Is the body that left under this id still frozen at its origin? */
  predicate StillFrozen(s: System, id: MigrationId)
    requires id in s.minted
  {
    var i := s.minted[id].origin;
    i < |s.worlds| && id in s.worlds[i].exporter.inFlight
    && Usable(s.worlds[i].game, s.worlds[i].exporter.inFlight[id].body)
  }

  ghost predicate ActLoses(s: System, i: nat, op: Local.Op, e: int)
    requires i < |s.worlds|
  {
    var w := s.worlds[i];
    match op
    case Dies(h) => BodyHolds(w, s.decisions, h, e)
    case Ack(id, f) => AckTarget(w, id, f).Some? && BodyHolds(w, s.decisions, AckTarget(w, id, f).value, e)
    case In(data, env) => OnlyRemembered(w, data, env) && MintHolds(s, data.migrationId.value, e)
    case _ => false
  }

  /** The organism dies while it is held by a body; an ACK destroys the body that holds it; its
      delivery is taken for a copy; or it is refused when its body is gone. */
  ghost predicate Loses(s: System, step: Step, e: int)
    requires Enabled(s, step)
  {
    match step
    case Act(i, op) => ActLoses(s, i, op, e)
    case Post(_, _) => false
    case Decide(id, decision) => decision.Refused? && MintHolds(s, id, e) && !StillFrozen(s, id)
  }

  // ---- one step ------------------------------------------------------------------------

  lemma DropOne(s: System, s': System, from: Holder, e: int)
    requires Unique(s) && forall k :: Holds(s', k, e) <==> Holds(s, k, e) && k != from
    ensures Held(s', e) <==> Held(s, e) && !Holds(s, from, e)
  {
  }

  lemma MoveOne(s: System, s': System, from: Holder, to: Holder, e: int, moved: int)
    requires Holds(s, from, moved) && Holds(s', to, moved)
    requires forall k | Holds(s', k, e) :: Holds(s, k, e) || (k == to && e == moved)
    requires forall k | Holds(s, k, e) :: Holds(s', k, e) || (k == from && e == moved)
    ensures Held(s', e) <==> Held(s, e)
  {
  }

  lemma SeenStays(w: World, op: Local.Op, session: string)
    requires Local.Allowed(w, op) && !op.In?
    requires w.importer.ledgerSession == Some(session) && (op.Handshake? ==> op.session == session)
    ensures Local.Apply(w, op).importer.seen == w.importer.seen
  {
  }

  /** A holder elsewhere, and a migration not remembered in this step, go on holding. */
  lemma ElsewhereHolds(s: System, i: nat, op: Local.Op, k: Holder, e: int)
    requires SysInv(s) && Enabled(s, Act(i, op)) && Holds(s, k, e)
    requires k.InBody? ==> k.world != i
    requires k.InMint? && Fold(k.id) in Local.Apply(s.worlds[i], op).importer.seen
             ==> Fold(k.id) in s.worlds[i].importer.seen
    ensures Holds(Next(s, Act(i, op)), k, e)
  {
  }

  lemma AckSpares(w: World, d: map<MigrationId, Decision>, id: MigrationId, f: int, h: Handle, e: int)
    requires Local.Inv(w) && BodyHolds(w, d, h, e) && AckTarget(w, id, f) != Some(h)
    ensures BodyHolds(HandleAck(w, id, f), d, h, e)
  {
    if !w.game.bodies[h].enabled {
      assert Frozen(w.game, h) && Local.BoundTo(w, h, w.exporter.byEntity[e]);
    }
    if id in w.exporter.inFlight { assert Local.RecordOk(w, id); }
  }

  lemma AckDestroys(w: World, d: map<MigrationId, Decision>, id: MigrationId, f: int, h: Handle, e: int)
    requires Local.Inv(w) && AckTarget(w, id, f) == Some(h)
    ensures !BodyHolds(HandleAck(w, id, f), d, h, e)
  {
    if id !in w.exporter.inFlight { Local.FindIsExact(w.game, f); }
  }

  lemma NackSpares(w: World, d: map<MigrationId, Decision>, id: MigrationId, permanent: bool, retry: Option<int>,
        h: Handle, e: int)
    requires Local.Inv(w) && BodyHolds(w, d, h, e)
    ensures BodyHolds(HandleNack(w, id, permanent, retry), d, h, e)
  {
    if !w.game.bodies[h].enabled {
      assert Frozen(w.game, h) && Local.BoundTo(w, h, w.exporter.byEntity[e]);
    }
    if id in w.exporter.inFlight { assert Local.RecordOk(w, id); }
  }

  lemma BeginSpares(w: World, d: map<MigrationId, Decision>, op: Local.Op, h: Handle, e: int)
    requires op.Begin? && Local.Allowed(w, op) && Begins(w, op.h, op.probe)
    requires BodyHolds(w, d, h, e) && h != op.h
    ensures BodyHolds(Local.Apply(w, op), d, h, e)
  {
  }

  predicate Plain(w: World, op: Local.Op) {
    !op.In? && !op.Born? && !op.Ack? && !op.Dies? && !(op.Begin? && op.h in w.game.bodies && Begins(w, op.h, op.probe))
  }

  lemma PlainSpares(w: World, d: map<MigrationId, Decision>, op: Local.Op, h: Handle, e: int)
    requires Local.Inv(w) && Local.Allowed(w, op) && Plain(w, op) && BodyHolds(w, d, h, e)
    ensures BodyHolds(Local.Apply(w, op), d, h, e)
  {
    match op
    case Nack(id, permanent, retry) => NackSpares(w, d, id, permanent, retry, h, e);
    case _ =>
  }

  lemma PlainHeld(s: System, i: nat, op: Local.Op, e: int)
    requires SysInv(s) && Enabled(s, Act(i, op)) && Plain(s.worlds[i], op)
    ensures Held(Next(s, Act(i, op)), e) <==> Held(s, e)
  {
    var w, s' := s.worlds[i], Next(s, Act(i, op));
    assert WorldOk(s, i);
    SeenStays(w, op, s.sessions[i]);
    forall k ensures Holds(s', k, e) <==> Holds(s, k, e) {
      if k.InBody? && k.world == i {
        if Holds(s', k, e) { PlainBodies(s, i, op, k.h, e); }
        if Holds(s, k, e) { PlainSpares(w, s.decisions, op, k.h, e); }
      } else {
        if Holds(s', k, e) { PlainElsewhere(s, i, op, k, e); }
        if Holds(s, k, e) { ElsewhereHolds(s, i, op, k, e); }
      }
    }
  }

  /** A step that can only take body `b` of world `i` away. */
  lemma TakesBody(s: System, i: nat, op: Local.Op, b: Handle, e: int)
    requires SysInv(s) && Enabled(s, Act(i, op)) && (op.Ack? || op.Dies?)
    requires forall h :: BodyHolds(Local.Apply(s.worlds[i], op), s.decisions, h, e)
                         <==> BodyHolds(s.worlds[i], s.decisions, h, e) && h != b
    ensures Held(Next(s, Act(i, op)), e) <==> Held(s, e) && !BodyHolds(s.worlds[i], s.decisions, b, e)
  {
    var s' := Next(s, Act(i, op));
    assert WorldOk(s, i);
    SeenStays(s.worlds[i], op, s.sessions[i]);
    forall k ensures Holds(s', k, e) <==> Holds(s, k, e) && k != InBody(i, b) {
      if !(k.InBody? && k.world == i) {
        if Holds(s', k, e) { PlainElsewhere(s, i, op, k, e); }
        if Holds(s, k, e) { ElsewhereHolds(s, i, op, k, e); }
      }
    }
    DropOne(s, s', InBody(i, b), e);
  }

  lemma DiesHeld(s: System, i: nat, op: Local.Op, e: int)
    requires SysInv(s) && Enabled(s, Act(i, op)) && op.Dies?
    ensures Held(Next(s, Act(i, op)), e) <==> Held(s, e) && !ActLoses(s, i, op, e)
  {
    var w := s.worlds[i];
    assert WorldOk(s, i);
    forall h
      ensures BodyHolds(Local.Apply(w, op), s.decisions, h, e) <==> BodyHolds(w, s.decisions, h, e) && h != op.h
    {
    }
    TakesBody(s, i, op, op.h, e);
  }

  lemma AckHeld(s: System, i: nat, op: Local.Op, e: int)
    requires SysInv(s) && Enabled(s, Act(i, op)) && op.Ack?
    ensures Held(Next(s, Act(i, op)), e) <==> Held(s, e) && !ActLoses(s, i, op, e)
  {
    var w, target := s.worlds[i], AckTarget(s.worlds[i], op.id, op.entityId);
    assert WorldOk(s, i);
    if target.None? {
      assert Next(s, Act(i, op)) == s by { assert s.worlds[i := w] == s.worlds; }
    } else {
      forall h ensures BodyHolds(Local.Apply(w, op), s.decisions, h, e)
                       <==> BodyHolds(w, s.decisions, h, e) && h != target.value
      {
        if BodyHolds(Local.Apply(w, op), s.decisions, h, e) { AckBodies(w, s.decisions, op.id, op.entityId, h, e); }
        if h == target.value { AckDestroys(w, s.decisions, op.id, op.entityId, h, e); }
        else if BodyHolds(w, s.decisions, h, e) { AckSpares(w, s.decisions, op.id, op.entityId, h, e); }
      }
      TakesBody(s, i, op, target.value, e);
    }
  }

  /** An ACK for a journaled id, as the sidecar sends them, costs an organism exactly when its
      record is gone and the organism it names lives here: a late copy of the ACK of a migration
      that came back. */
  lemma JournaledAckLosesIff(s: System, i: nat, op: Local.Op, e: int)
    requires SysInv(s) && Enabled(s, Act(i, op)) && op.Ack?
    requires op.id in s.decisions && s.decisions[op.id].Journaled?
    ensures Loses(s, Act(i, op), e)
       <==> op.id !in s.worlds[i].exporter.inFlight && e == op.entityId && FindBodyById(s.worlds[i].game, e).Some?
  {
    var w := s.worlds[i];
    assert WorldOk(s, i);
    if op.id in w.exporter.inFlight { assert Local.RecordOk(w, op.id); }
    Local.FindIsExact(w.game, op.entityId);
  }

  lemma BeginHeld(s: System, i: nat, op: Local.Op, e: int)
    requires SysInv(s) && Enabled(s, Act(i, op)) && op.Begin? && Begins(s.worlds[i], op.h, op.probe)
    ensures Held(Next(s, Act(i, op)), e) <==> Held(s, e)
  {
    var w, s' := s.worlds[i], Next(s, Act(i, op));
    var moved := w.game.bodies[op.h].id;
    assert WorldOk(s, i) && op.newId !in s.decisions;
    assert Holds(s, InBody(i, op.h), moved) && Holds(s', InMint(op.newId), moved);
    SeenStays(w, op, s.sessions[i]);
    forall k | Holds(s', k, e) ensures Holds(s, k, e) || (k == InMint(op.newId) && e == moved) {
      if k.InBody? && k.world == i { BeginBodies(w, s.decisions, op, k.h, e); }
      else if k != InMint(op.newId) { ElsewhereSame(s, i, op, k, e); }
    }
    forall k | Holds(s, k, e) ensures Holds(s', k, e) || (k == InBody(i, op.h) && e == moved) {
      if k.InBody? && k.world == i {
        if k.h != op.h { BeginSpares(w, s.decisions, op, k.h, e); }
      } else {
        ElsewhereHolds(s, i, op, k, e);
      }
    }
    MoveOne(s, s', InBody(i, op.h), InMint(op.newId), e, moved);
  }

  lemma BornHeld(s: System, i: nat, op: Local.Op, e: int)
    requires SysInv(s) && Enabled(s, Act(i, op)) && op.Born? && e in s.everIds
    ensures Held(Next(s, Act(i, op)), e) <==> Held(s, e)
  {
    var w, s' := s.worlds[i], Next(s, Act(i, op));
    assert WorldOk(s, i);
    forall k ensures Holds(s', k, e) <==> Holds(s, k, e) {
      if !(k.InBody? && k.world == i) {
        if Holds(s', k, e) { ElsewhereSame(s, i, op, k, e); }
        if Holds(s, k, e) { ElsewhereHolds(s, i, op, k, e); }
      }
    }
  }

  // ---- a delivery ----------------------------------------------------------------------

  /** Past every gate, but taken for a copy of an organism that is here or in flight from here. */
  predicate Copied(w: World, data: InData, env: InEnv) {
    && UsableId(data) && Refusal(data, env).None? && Fold(data.migrationId.value) !in w.importer.seen
    && (FindBodyById(w.game, EntityOf(data)).Some? || IsInFlight(w, EntityOf(data)))
  }

  lemma StandChanges(g: Game, h: Handle, id: int)
    ensures Stand(g, h, id) != g
  {
    assert |Stand(g, h, id).tracker| == |g.tracker| + 1;
  }

  /** An id is remembered exactly by the delivery that stands up and the one taken for a copy. */
  lemma InRemembers(w: World, data: InData, env: InEnv)
    ensures Stood(w, data, env) || Copied(w, data, env) ==>
      UsableId(data) && Fold(data.migrationId.value) !in w.importer.seen
    ensures HandleIn(w, data, env).importer.seen ==
            if Stood(w, data, env) || Copied(w, data, env)
            then w.importer.seen + {Fold(data.migrationId.value)} else w.importer.seen
    ensures Stood(w, data, env) ==>
      !Copied(w, data, env)
      && HandleIn(w, data, env).game == Stand(w.game, env.restore.handle, env.restore.restoredId)
  {
    if env.restore.Restored? { StandChanges(w.game, env.restore.handle, env.restore.restoredId); }
  }

  lemma InSpares(w: World, d: map<MigrationId, Decision>, data: InData, env: InEnv, h: Handle, e: int)
    requires Local.Allowed(w, Local.In(data, env)) && BodyHolds(w, d, h, e)
    ensures BodyHolds(HandleIn(w, data, env), d, h, e)
  {
    Local.InShape(w, data, env);
  }

  /** The migration a fresh id names holds its organism until this very delivery. */
  lemma FreshMintHolds(s: System, i: nat, op: Local.Op)
    requires SysInv(s) && Enabled(s, Act(i, op)) && op.In? && UsableId(op.data) && op.data.entityId.Some?
    requires Fold(op.data.migrationId.value) !in s.worlds[i].importer.seen
    ensures var m := op.data.migrationId.value; Fold(m) == m && MintHolds(s, m, EntityOf(op.data))
  {
    assert Justified(s, i, InLetter(op.data));
  }

  lemma InFoldsTo(s: System, i: nat, op: Local.Op)
    requires SysInv(s) && Enabled(s, Act(i, op)) && op.In? && UsableId(op.data)
    ensures Fold(op.data.migrationId.value) == op.data.migrationId.value
  {
    assert Justified(s, i, InLetter(op.data));
  }

  /** Every holder but that migration goes on holding. */
  lemma InKeepsOthers(s: System, i: nat, op: Local.Op, k: Holder, e: int)
    requires SysInv(s) && Enabled(s, Act(i, op)) && op.In? && Holds(s, k, e)
    requires UsableId(op.data) ==> k != InMint(op.data.migrationId.value)
    requires UsableId(op.data) ==> Fold(op.data.migrationId.value) == op.data.migrationId.value
    ensures Holds(Next(s, Act(i, op)), k, e)
  {
    InRemembers(s.worlds[i], op.data, op.env);
    if k.InBody? && k.world == i {
      InSpares(s.worlds[i], s.decisions, op.data, op.env, k.h, e);
    } else {
      ElsewhereHolds(s, i, op, k, e);
    }
  }

  lemma InMakesOne(s: System, i: nat, op: Local.Op, k: Holder, e: int)
    requires SysInv(s) && Enabled(s, Act(i, op)) && op.In? && Holds(Next(s, Act(i, op)), k, e)
    ensures Holds(s, k, e)
            || (Stood(s.worlds[i], op.data, op.env) && k == InBody(i, op.env.restore.handle) && e == EntityOf(op.data))
  {
    var w := s.worlds[i];
    assert WorldOk(s, i);
    InRemembers(w, op.data, op.env);
    if k.InBody? && k.world == i {
      Local.InShape(w, op.data, op.env);
      InBodies(w, s.decisions, op.data, op.env, k.h, e);
    } else {
      ElsewhereSame(s, i, op, k, e);
    }
  }

  lemma StoodHeld(s: System, i: nat, op: Local.Op, e: int)
    requires SysInv(s) && Enabled(s, Act(i, op)) && op.In? && Stood(s.worlds[i], op.data, op.env)
    ensures Held(Next(s, Act(i, op)), e) <==> Held(s, e)
  {
    var w, s' := s.worlds[i], Next(s, Act(i, op));
    var m, h, moved := op.data.migrationId.value, op.env.restore.handle, EntityOf(op.data);
    InRemembers(w, op.data, op.env);
    FreshMintHolds(s, i, op);
    assert Holds(s, InMint(m), moved) && Holds(s', InBody(i, h), moved);
    forall k | Holds(s', k, e) ensures Holds(s, k, e) || (k == InBody(i, h) && e == moved) {
      InMakesOne(s, i, op, k, e);
    }
    forall k | Holds(s, k, e) ensures Holds(s', k, e) || (k == InMint(m) && e == moved) {
      if k != InMint(m) { InKeepsOthers(s, i, op, k, e); }
    }
    MoveOne(s, s', InMint(m), InBody(i, h), e, moved);
  }

  lemma NoBodyBeside(s: System, id: MigrationId, i: nat, h: Handle, e: int)
    requires Unique(s) && MintHolds(s, id, e) && i < |s.worlds|
    ensures !BodyHolds(s.worlds[i], s.decisions, h, e)
  {
    assert Holds(s, InMint(id), e);
    assert Holds(s, InBody(i, h), e) <==> BodyHolds(s.worlds[i], s.decisions, h, e);
  }

  /** Only a body in flight from here can make a copy of an organism a migration still holds. */
  lemma CopyIsInFlight(s: System, i: nat, op: Local.Op)
    requires SysInv(s) && Enabled(s, Act(i, op)) && op.In? && Copied(s.worlds[i], op.data, op.env)
    ensures OnlyRemembered(s.worlds[i], op.data, op.env)
  {
    var w, e := s.worlds[i], EntityOf(op.data);
    assert WorldOk(s, i);
    FreshMintHolds(s, i, op);
    Local.FindIsExact(w.game, e);
    match FindBodyById(w.game, e)
    case Some(h) => NoBodyBeside(s, op.data.migrationId.value, i, h, e);
    case None =>
  }

  lemma CopiedHeld(s: System, i: nat, op: Local.Op, e: int)
    requires SysInv(s) && Enabled(s, Act(i, op)) && op.In? && Copied(s.worlds[i], op.data, op.env)
    ensures Held(Next(s, Act(i, op)), e) <==> Held(s, e) && !ActLoses(s, i, op, e)
  {
    var w, s', m := s.worlds[i], Next(s, Act(i, op)), op.data.migrationId.value;
    InRemembers(w, op.data, op.env);
    InFoldsTo(s, i, op);
    CopyIsInFlight(s, i, op);
    FreshMintHolds(s, i, op);
    forall k ensures Holds(s', k, e) <==> Holds(s, k, e) && k != InMint(m) {
      if Holds(s', k, e) { InMakesOne(s, i, op, k, e); }
      if Holds(s, k, e) && k != InMint(m) { InKeepsOthers(s, i, op, k, e); }
    }
    DropOne(s, s', InMint(m), e);
  }

  lemma RefusedInKeeps(s: System, i: nat, op: Local.Op, k: Holder, e: int)
    requires SysInv(s) && Enabled(s, Act(i, op)) && op.In? && Holds(s, k, e)
    requires !Stood(s.worlds[i], op.data, op.env) && !Copied(s.worlds[i], op.data, op.env)
    ensures Holds(Next(s, Act(i, op)), k, e)
  {
    InRemembers(s.worlds[i], op.data, op.env);
    if k.InBody? && k.world == i {
      InSpares(s.worlds[i], s.decisions, op.data, op.env, k.h, e);
    } else {
      ElsewhereHolds(s, i, op, k, e);
    }
  }

  lemma InHeld(s: System, i: nat, op: Local.Op, e: int)
    requires SysInv(s) && Enabled(s, Act(i, op)) && op.In?
    ensures Held(Next(s, Act(i, op)), e) <==> Held(s, e) && !ActLoses(s, i, op, e)
  {
    var w, s' := s.worlds[i], Next(s, Act(i, op));
    InRemembers(w, op.data, op.env);
    if Stood(w, op.data, op.env) {
      StoodHeld(s, i, op, e);
    } else if Copied(w, op.data, op.env) {
      CopiedHeld(s, i, op, e);
    } else {
      forall k ensures Holds(s', k, e) <==> Holds(s, k, e) {
        if Holds(s', k, e) { InMakesOne(s, i, op, k, e); }
        if Holds(s, k, e) { RefusedInKeeps(s, i, op, k, e); }
      }
    }
  }

  // ---- a decision ----------------------------------------------------------------------

  lemma JournaledHeld(s: System, id: MigrationId, dest: nat, e: int)
    requires SysInv(s) && Enabled(s, Decide(id, Journaled(dest)))
    ensures Held(Next(s, Decide(id, Journaled(dest))), e) <==> Held(s, e)
  {
    var s' := Next(s, Decide(id, Journaled(dest)));
    assert RememberedOk(s, id, dest);
    assert forall k :: Holds(s', k, e) <==> Holds(s, k, e);
  }

  function Home(s: System, id: MigrationId): Holder
    requires id in s.minted && StillFrozen(s, id)
  {
    InBody(s.minted[id].origin, s.worlds[s.minted[id].origin].exporter.inFlight[id].body)
  }

  lemma RefusalSpares(s: System, id: MigrationId, k: Holder, e: int)
    requires Enabled(s, Decide(id, Refused)) && Holds(s, k, e) && k != InMint(id)
    ensures Holds(Next(s, Decide(id, Refused)), k, e)
  {
  }

  lemma HomeHolds(s: System, id: MigrationId)
    requires SysInv(s) && Enabled(s, Decide(id, Refused)) && StillFrozen(s, id)
    ensures Holds(Next(s, Decide(id, Refused)), Home(s, id), s.minted[id].frame.entityId)
  {
    var i := s.minted[id].origin;
    assert WorldOk(s, i) && Local.RecordOk(s.worlds[i], id);
    RecordsKnown(s, i, id);
  }

  lemma RefusedHeld(s: System, id: MigrationId, e: int)
    requires SysInv(s) && Enabled(s, Decide(id, Refused))
    ensures Held(Next(s, Decide(id, Refused)), e) <==> Held(s, e) && !Loses(s, Decide(id, Refused), e)
  {
    var s', m := Next(s, Decide(id, Refused)), s.minted[id];
    var moved := m.frame.entityId;
    assert Holds(s, InMint(id), moved);
    forall k | Holds(s, k, e) ensures Holds(s', k, e) || k == InMint(id) {
      if k != InMint(id) { RefusalSpares(s, id, k, e); }
    }
    forall k | Holds(s', k, e)
      ensures (Holds(s, k, e) && k != InMint(id)) || (StillFrozen(s, id) && k == Home(s, id) && e == moved)
    {
      if !Holds(s, k, e) { RefusedBody(s, id, k, e); }
    }
    if StillFrozen(s, id) {
      HomeHolds(s, id);
      MoveOne(s, s', InMint(id), Home(s, id), e, moved);
    } else {
      DropOne(s, s', InMint(id), e);
    }
  }

  // ---- every step, every run -----------------------------------------------------------

  /** A step leaves an organism that had a holder without one exactly when it is one of the
      losing steps, and gives none to an organism that had none. */
  lemma StepHeldIff(s: System, step: Step, e: int)
    requires SysInv(s) && Enabled(s, step) && e in s.everIds
    ensures Held(Next(s, step), e) <==> Held(s, e) && !Loses(s, step, e)
  {
    match step
    case Act(i, op) =>
      if op.In? { InHeld(s, i, op, e); }
      else if op.Born? { BornHeld(s, i, op, e); }
      else if op.Ack? { AckHeld(s, i, op, e); }
      else if op.Dies? { DiesHeld(s, i, op, e); }
      else if Plain(s.worlds[i], op) { PlainHeld(s, i, op, e); }
      else { BeginHeld(s, i, op, e); }
    case Post(i, letter) =>
      assert forall k :: Holds(Next(s, step), k, e) <==> Holds(s, k, e);
    case Decide(id, decision) =>
      match decision
      case Refused => RefusedHeld(s, id, e);
      case Journaled(dest) => JournaledHeld(s, id, dest, e);
  }

  ghost predicate LostIn(s: System, steps: seq<Step>, e: int)
    requires Legal(s, steps)
    decreases |steps|
  {
    steps != [] && (Loses(s, steps[0], e) || LostIn(Next(s, steps[0]), steps[1..], e))
  }

  lemma {:induction false} RunHeldIff(s: System, steps: seq<Step>, e: int)
    requires SysInv(s) && Legal(s, steps) && e in s.everIds
    ensures Held(Run(s, steps), e) <==> Held(s, e) && !LostIn(s, steps, e)
    decreases |steps|
  {
    if steps != [] {
      StepKeepsSystem(s, steps[0]);
      StepHeldIff(s, steps[0], e);
      RunHeldIff(Next(s, steps[0]), steps[1..], e);
    }
  }

  /** Conservation: an organism that lives in some world has, after any run under any loss,
      duplication, delay, reordering, timeout or reconnect, exactly one holder, unless a step of
      the run lost it; and then it has none. */
  lemma Conserved(s: System, steps: seq<Step>, i: nat, h: Handle)
    requires Init(s) && Legal(s, steps) && i < |s.worlds| && Active(s.worlds[i].game, h)
    ensures var e, r := s.worlds[i].game.bodies[h].id, Run(s, steps);
      && (Held(r, e) <==> !LostIn(s, steps, e))
      && (forall k, l | Holds(r, k, e) && Holds(r, l, e) :: k == l)
  {
    var e := s.worlds[i].game.bodies[h].id;
    InitOk(s);
    assert Holds(s, InBody(i, h), e);
    RunHeldIff(s, steps, e);
    RunKeeps(s, steps);
  }
}
