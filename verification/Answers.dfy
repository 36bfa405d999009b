/** Every delivery is answered exactly once, in arrival order, and a migration id spawns at
    most one organism that survives, over every run of one armed session. */
module Answers {
  import opened ContractA
  import opened Lists
  import opened Worlds
  import opened Clients
  import LocalCustody

  // ---- what was asked and what was answered --------------------------------------------

  /** The ids of the MIGRATE_IN answers in a log of sent frames, in order. */
  function Answered(sent: seq<Frame>): seq<MigrationId> {
    if sent == [] then []
    else Answered(sent[..|sent| - 1]) + AnswerIn(sent[|sent| - 1])
  }

  function AnswerIn(f: Frame): seq<MigrationId> {
    match f
    case InAck(id, _, _) => [id]
    case InNack(id, _, _, _) => [id]
    case _ => []
  }

  /** The answerable ids of a queue, in order. */
  function Asked(s: seq<Pending>): seq<MigrationId> {
    if s == [] then [] else Asked(s[..|s| - 1]) + AskedBy(s[|s| - 1].mutation)
  }

  function AskedBy(m: Mutation): seq<MigrationId> {
    if m.MigrateIn? && UsableId(m.data) then [m.data.migrationId.value] else []
  }

  lemma AnsweredOne(s: seq<Frame>, f: Frame)
    ensures Answered(s + [f]) == Answered(s) + AnswerIn(f)
  {
    assert (s + [f])[..|s|] == s;
  }

  lemma {:induction false} AnsweredAppend(s: seq<Frame>, t: seq<Frame>)
    ensures Answered(s + t) == Answered(s) + Answered(t)
  {
    if t == [] {
      assert s + t == s;
    } else {
      var init, last := t[..|t| - 1], t[|t| - 1];
      assert t == init + [last];
      AnsweredAppend(s, init);
      AnsweredOne(s + init, last);
      AnsweredOne(init, last);
      Reassociate(s, init, [last]);
      Reassociate(Answered(s), Answered(init), AnswerIn(last));
    }
  }

  lemma AskedOne(s: seq<Pending>, p: Pending)
    ensures Asked(s + [p]) == Asked(s) + AskedBy(p.mutation)
  {
    assert (s + [p])[..|s|] == s;
  }

  lemma {:induction false} AskedAppend(s: seq<Pending>, t: seq<Pending>)
    ensures Asked(s + t) == Asked(s) + Asked(t)
  {
    if t == [] {
      assert s + t == s;
    } else {
      var init, last := t[..|t| - 1], t[|t| - 1];
      assert t == init + [last];
      AskedAppend(s, init);
      AskedOne(s + init, last);
      AskedOne(init, last);
      Reassociate(s, init, [last]);
      Reassociate(Asked(s), Asked(init), AskedBy(last.mutation));
    }
  }

  // ---- one handler ---------------------------------------------------------------------

  /** Handling a delivery sends one frame, an answer under the delivery's own id. */
  lemma InSendsOneAnswer(w: World, data: InData, env: InEnv)
    ensures UsableId(data) ==>
      var sent := HandleIn(w, data, env).sent;
      && |sent| == |w.sent| + 1
      && sent == w.sent + [sent[|w.sent|]]
      && AnswerIn(sent[|w.sent|]) == [data.migrationId.value]
    ensures !UsableId(data) ==> HandleIn(w, data, env).sent == w.sent
  {
  }

  lemma DeliveryAnswersOnce(w: World, data: InData, env: InEnv)
    ensures Answered(HandleIn(w, data, env).sent) == Answered(w.sent) + AskedBy(MigrateIn(data))
  {
    InSendsOneAnswer(w, data, env);
    if UsableId(data) { AnsweredOne(w.sent, HandleIn(w, data, env).sent[|w.sent|]); }
  }

  lemma OthersSendNothing(w: World, m: Mutation, env: InEnv)
    requires !m.MigrateIn?
    ensures ApplyMutation(w, m, env).sent == w.sent
  {
  }

  /** A delivery with a usable id gets one answer, under that id; nothing else gets any. */
  lemma MutationAnswersOnce(w: World, m: Mutation, env: InEnv)
    ensures Answered(ApplyMutation(w, m, env).sent) == Answered(w.sent) + AskedBy(m)
  {
    if m.MigrateIn? {
      DeliveryAnswersOnce(w, m.data, env);
    } else {
      OthersSendNothing(w, m, env);
    }
  }

  lemma UnhandledAnswersOnce(w: World, data: InData, code: NackCode)
    ensures Answered(NackUnhandled(w, data, code).sent) == Answered(w.sent) + AskedBy(MigrateIn(data))
  {
    if UsableId(data) {
      AnsweredOne(w.sent, InNack(data.migrationId.value, EntityOf(data), code, false));
    }
  }

  /** A batch answers its deliveries one by one, in arrival order. */
  lemma {:induction false} BatchAnswersInOrder(w: World, batch: seq<Pending>, envs: seq<InEnv>)
    requires |batch| <= |envs|
    ensures Answered(ApplyBatch(w, batch, envs).sent) == Answered(w.sent) + Asked(batch)
  {
    if batch != [] {
      var n := |batch| - 1;
      BatchAnswersInOrder(w, batch[..n], envs);
      MutationAnswersOnce(ApplyBatch(w, batch[..n], envs), batch[n].mutation, envs[n]);
    }
  }

  lemma {:induction false} RefuseAllAnswersInOrder(w: World, s: seq<Pending>)
    ensures Answered(RefuseAll(w, s).sent) == Answered(w.sent) + Asked(s)
  {
    if s != [] {
      var n := |s| - 1;
      RefuseAllAnswersInOrder(w, s[..n]);
      if s[n].mutation.MigrateIn? {
        UnhandledAnswersOnce(RefuseAll(w, s[..n]), s[n].mutation.data, ShuttingDown);
      }
    }
  }

  lemma AskedCons(p: Pending, rest: seq<Pending>)
    ensures Asked([p] + rest) == AskedBy(p.mutation) + Asked(rest)
  {
    AskedAppend([p], rest);
    assert [p][..0] == [];
  }

  lemma Regroup(a: seq<MigrationId>, b: seq<MigrationId>, c: seq<MigrationId>)
    ensures multiset(a + b) + multiset(c) == multiset(a) + multiset(b + c)
  {
  }

  /** A pause refuses exactly what it takes out of the queue: answers and what stays in the
      queue together are what was answered and queued before. */
  lemma {:induction false} PauseConserves(w: World, s: seq<Pending>, now: real)
    ensures multiset(Answered(RefuseStale(w, s, now).sent)) + multiset(Asked(Kept(s, now)))
         == multiset(Answered(w.sent)) + multiset(Asked(s))
  {
    if s != [] {
      PauseConserves(w, s[1..], now);
      PauseOne(w, s[0], s[1..], now);
      assert s == [s[0]] + s[1..];
      AskedCons(s[0], s[1..]);
      Regroup(Answered(w.sent), AskedBy(s[0].mutation), Asked(s[1..]));
      Regroup([], Answered(w.sent), AskedBy(s[0].mutation));
    }
  }

  lemma PauseOne(w: World, p: Pending, rest: seq<Pending>, now: real)
    ensures multiset(Answered(RefuseStale(w, [p] + rest, now).sent)) + multiset(Asked(Kept([p] + rest, now)))
         == multiset(Answered(RefuseStale(w, rest, now).sent)) + multiset(Asked(Kept(rest, now)))
           + multiset(AskedBy(p.mutation))
  {
    var v := RefuseStale(w, rest, now);
    assert ([p] + rest)[1..] == rest;
    if Stale(p, now) {
      UnhandledAnswersOnce(v, p.mutation.data, SimNotReady);
      Regroup(Answered(v.sent), AskedBy(p.mutation), []);
    } else {
      AskedCons(p, Kept(rest, now));
      Regroup(AskedBy(p.mutation), Asked(Kept(rest, now)), []);
    }
  }

  /** What a pause leaves is the queue filtered: each entry that is not stale is still there,
      at the place given by the number of such entries before it, and no stale entry is. */
  lemma KeptIsTheFilter(s: seq<Pending>, now: real, k: nat)
    requires k < |s|
    ensures |Kept(s[..k + 1], now)| == |Kept(s[..k], now)| + (if Stale(s[k], now) then 0 else 1) <= |Kept(s, now)|
    ensures !Stale(s[k], now) ==> Kept(s, now)[|Kept(s[..k], now)|] == s[k]
  {
    assert s == s[..k + 1] + s[k + 1..] && s[..k + 1] == s[..k] + [s[k]];
    KeptAppend(s[..k + 1], s[k + 1..], now);
    KeptAppend(s[..k], [s[k]], now);
    assert Kept([s[k]], now) == if Stale(s[k], now) then [] else [s[k]];
  }

  // ---- whole sessions ------------------------------------------------------------------

  /** `Other` is any custody operation that does not handle a letter from the wire. */
  datatype ClientOp =
    | Arrives(mutation: Mutation, at: real)
    | FixedUpdate(applied: nat, envs: seq<InEnv>)
    | PausedUpdate(now: real)
    | Reconnected(order: seq<MigrationId>, realtime: real)
    | Other(op: LocalCustody.Op)

  ghost predicate Possible(c: Client, op: ClientOp) {
    match op
    case Arrives(_, _) => true
    case FixedUpdate(n, envs) =>
      |c.pending| <= |envs| && n <= |c.pending| && n <= MAX_MUTATIONS_PER_FIXED_UPDATE && (c.pending != [] ==> n >= 1)
    case PausedUpdate(_) => true
    case Reconnected(order, _) => forall id | id in order :: id in c.world.exporter.inFlight
    case Other(o) =>
      !o.Ack? && !o.Nack? && !o.In? && !o.NackIn? && !o.Handshake? && !o.Greets? && !o.Replay?
      && LocalCustody.Allowed(c.world, o)
  }

  ghost function Do(c: Client, session: string, op: ClientOp): Client
    requires Possible(c, op)
  {
    match op
    case Arrives(m, at) => c.(pending := c.pending + [Pending(m, at)])
    case FixedUpdate(n, envs) => c.(world := ApplyBatch(c.world, c.pending[..n], envs), pending := c.pending[n..])
    case PausedUpdate(now) => c.(world := RefuseStale(c.world, c.pending, now), pending := Kept(c.pending, now))
    case Reconnected(order, realtime) => c.(world := Connected(c.world, session, order, realtime))
    case Other(o) => c.(world := LocalCustody.Apply(c.world, o))
  }

  ghost predicate Legal(c: Client, session: string, ops: seq<ClientOp>)
    decreases |ops|
  {
    ops == [] || (Possible(c, ops[0]) && Legal(Do(c, session, ops[0]), session, ops[1..]))
  }

  ghost function Run(c: Client, session: string, ops: seq<ClientOp>): Client
    requires Legal(c, session, ops)
    decreases |ops|
  {
    if ops == [] then c else Run(Do(c, session, ops[0]), session, ops[1..])
  }

  /** The answerable ids that arrived during a run. */
  ghost function Received(ops: seq<ClientOp>): multiset<MigrationId> {
    if ops == [] then multiset{}
    else (if ops[0].Arrives? then multiset(AskedBy(ops[0].mutation)) else multiset{}) + Received(ops[1..])
  }

  ghost function Account(c: Client): multiset<MigrationId> {
    multiset(Answered(c.world.sent)) + multiset(Asked(c.pending))
  }

  lemma NoAnswers(w: World, w': World, added: seq<Frame>)
    requires w'.sent == w.sent + added
    requires forall f | f in added :: AnswerIn(f) == []
    ensures Answered(w'.sent) == Answered(w.sent)
    decreases |added|
  {
    if added == [] {
      assert w'.sent == w.sent;
    } else {
      var n := |added| - 1;
      NoAnswers(w, w'.(sent := w.sent + added[..n]), added[..n]);
      assert w'.sent == (w.sent + added[..n]) + [added[n]];
      AnsweredOne(w.sent + added[..n], added[n]);
      assert added[n] in added;
    }
  }

  lemma TickConserves(c: Client, session: string, n: nat, envs: seq<InEnv>)
    requires Possible(c, FixedUpdate(n, envs))
    ensures Account(Do(c, session, FixedUpdate(n, envs))) == Account(c)
  {
    BatchAnswersInOrder(c.world, c.pending[..n], envs);
    AskedSplits(c.pending, n);
    Regroup(Answered(c.world.sent), Asked(c.pending[..n]), Asked(c.pending[n..]));
  }

  lemma AskedSplits(s: seq<Pending>, n: nat)
    requires n <= |s|
    ensures Asked(s) == Asked(s[..n]) + Asked(s[n..])
  {
    assert s == s[..n] + s[n..];
    AskedAppend(s[..n], s[n..]);
  }

  /** The remaining operations send a MIGRATE_OUT or nothing. */
  lemma OtherSends(w: World, o: LocalCustody.Op)
    requires !o.Ack? && !o.Nack? && !o.In? && !o.NackIn? && !o.Handshake? && !o.Greets? && !o.Replay?
    requires LocalCustody.Allowed(w, o)
    ensures var sent := LocalCustody.Apply(w, o).sent;
      sent == w.sent || (|sent| == |w.sent| + 1 && sent == w.sent + [sent[|w.sent|]] && sent[|w.sent|].MigrateOut?)
  {
  }

  lemma OtherConserves(c: Client, session: string, o: LocalCustody.Op)
    requires Possible(c, Other(o))
    ensures Account(Do(c, session, Other(o))) == Account(c)
  {
    var w, w' := c.world, LocalCustody.Apply(c.world, o);
    OtherSends(w, o);
    if w'.sent != w.sent {
      AnsweredOne(w.sent, w'.sent[|w.sent|]);
    }
  }

  lemma ReconnectConserves(c: Client, session: string, order: seq<MigrationId>, realtime: real)
    requires Possible(c, Reconnected(order, realtime))
    ensures Account(Do(c, session, Reconnected(order, realtime))) == Account(c)
  {
    var added := [ConfigUpdate(session)] + ReplayFrames(c.world.exporter.inFlight, order);
    assert Connected(c.world, session, order, realtime).sent == c.world.sent + added;
    NoAnswers(c.world, Connected(c.world, session, order, realtime), added);
  }

  lemma OpConserves(c: Client, session: string, op: ClientOp)
    requires Possible(c, op)
    ensures Account(Do(c, session, op))
         == Account(c) + (if op.Arrives? then multiset(AskedBy(op.mutation)) else multiset{})
  {
    match op
    case Arrives(m, at) =>
      AskedAppend(c.pending, [Pending(m, at)]);
      AskedCons(Pending(m, at), []);
    case FixedUpdate(n, envs) => TickConserves(c, session, n, envs);
    case PausedUpdate(now) => PauseConserves(c.world, c.pending, now);
    case Reconnected(order, realtime) => ReconnectConserves(c, session, order, realtime);
    case Other(o) => OtherConserves(c, session, o);
  }

  lemma {:induction false} RunConserves(c: Client, session: string, ops: seq<ClientOp>)
    requires Legal(c, session, ops)
    ensures Account(Run(c, session, ops)) == Account(c) + Received(ops)
    decreases |ops|
  {
    if ops != [] {
      OpConserves(c, session, ops[0]);
      RunConserves(Do(c, session, ops[0]), session, ops[1..]);
    }
  }

  /** From arming to disarming, every delivery with a usable id is answered exactly once: the
      answers sent, counted by id, are the deliveries received, counted by id. */
  lemma EveryDeliveryAnsweredOnce(c: Client, session: string, ops: seq<ClientOp>)
    requires c.pending == [] && c.world.sent == [] && Legal(c, session, ops)
    ensures var r := Run(c, session, ops);
      multiset(Answered(Unloaded(RefuseAll(r.world, r.pending)).sent)) == Received(ops)
  {
    RunConserves(c, session, ops);
    var r := Run(c, session, ops);
    RefuseAllAnswersInOrder(r.world, r.pending);
  }

  // ---- one surviving spawn per id ------------------------------------------------------

  /** How many times an id that folds to `k` was answered as newly standing. */
  function FreshAcks(sent: seq<Frame>, k: string): nat {
    if sent == [] then 0
    else
      var f := sent[|sent| - 1];
      FreshAcks(sent[..|sent| - 1], k) + (if f.InAck? && !f.duplicate && Fold(f.migrationId) == k then 1 else 0)
  }

  ghost predicate StandsAfter(w: World, data: InData, env: InEnv) {
    && env.restore.Restored?
    && env.restore.handle in HandleIn(w, data, env).game.bodies
    && Active(HandleIn(w, data, env).game, env.restore.handle)
  }

  /** A delivery leaves a new living organism behind exactly when it is answered with an ACK
      that is not a duplicate. */
  lemma FreshAckMeansSpawn(w: World, data: InData, env: InEnv)
    requires env.restore.Restored? ==> env.restore.handle !in w.game.bodies
    requires Distinct(w.game.tracker)
    ensures StandsAfter(w, data, env) <==>
      && HandleIn(w, data, env).sent != w.sent
      && HandleIn(w, data, env).sent[|w.sent|].InAck?
      && !HandleIn(w, data, env).sent[|w.sent|].duplicate
  {
  }

  /** The ledger covers every id ever answered as new, and such an answer comes once. */
  ghost predicate LedgerOk(w: World, session: string) {
    && w.importer.ledgerSession == Some(session)
    && forall k :: FreshAcks(w.sent, k) <= if k in w.importer.seen then 1 else 0
  }

  /** At most one frame is added, and one that answers an id as new comes with its first entry in
      the ledger. */
  ghost predicate AddsOne(w: World, w': World) {
    && w'.importer.ledgerSession == w.importer.ledgerSession && w.importer.seen <= w'.importer.seen
    && (w'.sent == w.sent
        || (&& |w'.sent| == |w.sent| + 1 && w'.sent == w.sent + [w'.sent[|w.sent|]]
            && var f := w'.sent[|w.sent|];
               f.InAck? && !f.duplicate ==>
                 Fold(f.migrationId) !in w.importer.seen && Fold(f.migrationId) in w'.importer.seen))
  }

  lemma InLedgerShape(w: World, data: InData, env: InEnv)
    ensures AddsOne(w, HandleIn(w, data, env))
  {
  }

  lemma LedgerGrows(w: World, w': World, session: string)
    requires LedgerOk(w, session) && AddsOne(w, w')
    ensures LedgerOk(w', session)
  {
    if w'.sent != w.sent {
      assert w'.sent[..|w'.sent| - 1] == w.sent;
    }
  }

  lemma HandleInLedger(w: World, session: string, data: InData, env: InEnv)
    requires LedgerOk(w, session)
    ensures LedgerOk(HandleIn(w, data, env), session)
  {
    InLedgerShape(w, data, env);
    LedgerGrows(w, HandleIn(w, data, env), session);
  }

  lemma QuietLedger(w: World, w': World, session: string, added: seq<Frame>)
    requires
      && LedgerOk(w, session)
      && w'.importer.seen == w.importer.seen
      && w'.importer.ledgerSession == w.importer.ledgerSession
    requires w'.sent == w.sent + added && forall f | f in added :: !f.InAck?
    ensures LedgerOk(w', session)
    decreases |added|
  {
    if added == [] {
      assert w'.sent == w.sent;
    } else {
      var n := |added| - 1;
      var v := w'.(sent := w.sent + added[..n]);
      QuietLedger(w, v, session, added[..n]);
      assert w'.sent[..|w'.sent| - 1] == v.sent;
      assert added[n] in added;
    }
  }

  lemma {:induction false} BatchLedger(w: World, session: string, batch: seq<Pending>, envs: seq<InEnv>)
    requires LedgerOk(w, session) && |batch| <= |envs|
    ensures LedgerOk(ApplyBatch(w, batch, envs), session)
  {
    if batch != [] {
      var n := |batch| - 1;
      BatchLedger(w, session, batch[..n], envs);
      var v, m := ApplyBatch(w, batch[..n], envs), batch[n].mutation;
      if m.MigrateIn? { HandleInLedger(v, session, m.data, envs[n]); }
      else { QuietLedger(v, ApplyMutation(v, m, envs[n]), session, []); }
    }
  }

  lemma {:induction false} PauseLedger(w: World, session: string, s: seq<Pending>, now: real)
    requires LedgerOk(w, session)
    ensures LedgerOk(RefuseStale(w, s, now), session)
  {
    if s != [] {
      PauseLedger(w, session, s[1..], now);
      var v, v' := RefuseStale(w, s[1..], now), RefuseStale(w, s, now);
      QuietLedger(v, v', session, v'.sent[|v.sent|..]);
    }
  }

  lemma OpLedger(c: Client, session: string, op: ClientOp)
    requires LedgerOk(c.world, session) && Possible(c, op)
    ensures LedgerOk(Do(c, session, op).world, session)
  {
    var c' := Do(c, session, op);
    match op
    case Arrives(_, _) =>
    case FixedUpdate(n, envs) => BatchLedger(c.world, session, c.pending[..n], envs);
    case PausedUpdate(now) => PauseLedger(c.world, session, c.pending, now);
    case Reconnected(order, realtime) =>
      QuietLedger(c.world, c'.world, session, [ConfigUpdate(session)] + ReplayFrames(c.world.exporter.inFlight, order));
    case Other(o) => QuietLedger(c.world, c'.world, session, c'.world.sent[|c.world.sent|..]);
  }

  lemma {:induction false} RunLedger(c: Client, session: string, ops: seq<ClientOp>)
    requires LedgerOk(c.world, session) && Legal(c, session, ops)
    ensures LedgerOk(Run(c, session, ops).world, session)
    decreases |ops|
  {
    if ops != [] {
      OpLedger(c, session, ops[0]);
      RunLedger(Do(c, session, ops[0]), session, ops[1..]);
    }
  }

  /** However often a delivery is repeated, and over any number of reconnects of one session,
      at most one answer per id (up to letter case) reports a new living organism. */
  lemma OneSpawnPerSession(c: Client, session: string, ops: seq<ClientOp>, id: MigrationId)
    requires c.world.sent == [] && c.world.importer.ledgerSession == Some(session) && Legal(c, session, ops)
    ensures FreshAcks(Run(c, session, ops).world.sent, Fold(id)) <= 1
  {
    RunLedger(c, session, ops);
  }

  /** The bound is per session and no wider: a handshake keeps the ledger exactly when the
      session is the same or there was nothing to forget. */
  lemma HandshakeKeepsLedgerIff(i: Importer, session: string)
    ensures OnHandshake(i, session).seen == i.seen <==> i.ledgerSession == Some(session) || i.seen == {}
  {
  }

  /** After a new session, an id whose organism is gone is spawned a second time. */
  lemma NewSessionSpawnsAgain(w: World, data: InData, env: InEnv, first: string, second: string)
    requires first != second && w.importer.ledgerSession == Some(first)
    requires
      && UsableId(data)
      && Refusal(data, env).None?
      && env.rewritable
      && env.restore.Restored?
      && env.restore.relinked
    requires FindBodyById(w.game, EntityOf(data)).None? && !IsInFlight(w, EntityOf(data))
    requires Fold(data.migrationId.value) in w.importer.seen
    ensures HandleIn(w, data, env).sent == w.sent + [InAck(data.migrationId.value, EntityOf(data), true)]
    ensures var v := HandleIn(w.(importer := OnHandshake(w.importer, second)), data, env);
      v.sent[|w.sent|].InAck? && !v.sent[|w.sent|].duplicate
  {
  }
}
