/** The two ways the protocol itself loses an organism, each shown on one world with one organism:
    a run from the start that the environment allows, and that ends with nobody holding it. */
module Losses {
  import opened ContractA
  import opened Worlds
  import opened CustodySystem
  import opened Conservation
  import Local = LocalCustody

  const ORGANISM := 7
  const FRAME := OutFrame(0, "m", ORGANISM, E, "")

  /** A system of one world, its session still open. */
  function Sys(
      w: World, wire: set<(nat, Letter)>, d: map<MigrationId, Decision>, minted: map<MigrationId, Mint>): System
  {
    System([w], ["s"], wire, d, minted, {ORGANISM})
  }

  // ---- the worlds of the two runs ------------------------------------------------------

  function NoTables(): Exporter {
    Exporter(map[], map[], map[])
  }

  function Resident(): World {
    World(Game(map[0 := Body(ORGANISM, true, true, false)], [0], 0.0), NoTables(), Importer({}, map[], Some("s")), [])
  }

  /** Captured: frozen, recorded and sent. */
  function Away(): World {
    World(Game(map[0 := Body(ORGANISM, false, false, false)], [], 0.0),
          Exporter(map["m" := InFlight("m", ORGANISM, E, 0, FRAME, 0.0, false, false)], map[ORGANISM := "m"], map[]),
          Importer({}, map[], Some("s")), [MigrateOut(FRAME)])
  }

  /** Settled by its ACK. */
  function Gone(): World {
    World(Game(map[0 := Body(ORGANISM, false, false, true)], [], 0.0), NoTables(),
          Importer({}, map[], Some("s")), [MigrateOut(FRAME)])
  }

  /** Delivered back, under a new handle. */
  function Back(): World {
    World(Game(map[0 := Body(ORGANISM, false, false, true), 1 := Body(ORGANISM, true, true, false)], [1], 0.0),
          NoTables(), Importer({"m"}, map[ORGANISM := ENTRY_IMMUNITY_SECONDS], Some("s")),
          [MigrateOut(FRAME), InAck("m", ORGANISM, false)])
  }

  // ---- the steps -----------------------------------------------------------------------

  function Delivery(): InData {
    InData(Some("m"), Some(ORGANISM), Some("bibite"), Some("1"), Some(""), Some("E"), Some(0.5), Some((0.0, 0.0)),
           Some(0.0), Some(true), Some(1))
  }

  /** The world is ready, and the restore stands up a body under handle 1. */
  function Ready(): InEnv {
    InEnv({E}, "1", true, true, Restored(1, ORGANISM, true))
  }

  const CAPTURE := Local.Begin(0, E, Probe(true, Serialized("", 0)), "m", 0, 0.0)
  const ACK := Local.Ack("m", ORGANISM)
  const MINTED: map<MigrationId, Mint> := map["m" := Mint(0, FRAME)]
  const BOUNCED: map<MigrationId, Decision> := map["m" := Journaled(0)]
  const IN_LETTER := (0, InLetter(Delivery()))
  const ACK_LETTER := (0, AckLetter("m", ORGANISM))

  lemma IdIsFolded()
    ensures Fold("m") == "m"
  {
  }

  lemma DeliveryIsFine()
    ensures UsableId(Delivery()) && Refusal(Delivery(), Ready()).None? && EntityOf(Delivery()) == ORGANISM
  {
    assert Trim("E") == "E";
  }

  lemma StartIsInit()
    ensures Init(Sys(Resident(), {}, map[], map[]))
  {
  }

  lemma CaptureWorks()
    ensures Local.Allowed(Resident(), CAPTURE) && Begins(Resident(), 0, CAPTURE.probe)
    ensures Local.Apply(Resident(), CAPTURE) == Away()
  {
    assert Untrack(Resident().game, 0).tracker == [];
  }

  lemma AckSettles()
    ensures Local.Apply(Away(), ACK) == Gone()
  {
    assert Settle(Away().exporter, "m") == NoTables();
  }

  lemma DeliveryStands()
    ensures Local.Allowed(Gone(), Local.In(Delivery(), Ready()))
    ensures Local.Apply(Gone(), Local.In(Delivery(), Ready())) == Back()
  {
    DeliveryIsFine();
    IdIsFolded();
  }

  /** A step of the one world, seen from the system. */
  lemma ActsTo(
      w: World, wire: set<(nat, Letter)>, d: map<MigrationId, Decision>, m: map<MigrationId, Mint>,
      op: Local.Op, w': World)
    requires Local.Allowed(w, op) && Local.Apply(w, op) == w' && !op.Begin? && !op.Born? && !op.Handshake?
    requires Delivered(Sys(w, wire, d, m), 0, op)
    ensures Enabled(Sys(w, wire, d, m), Act(0, op))
    ensures Next(Sys(w, wire, d, m), Act(0, op)) == Sys(w', wire, d, m)
  {
    assert [w][0 := w'] == [w'];
  }

  lemma CaptureStep()
    ensures var s := Sys(Resident(), {}, map[], map[]);
      Enabled(s, Act(0, CAPTURE)) && Next(s, Act(0, CAPTURE)) == Sys(Away(), {}, map[], MINTED)
  {
    IdIsFolded();
    CaptureWorks();
    assert [Resident()][0 := Away()] == [Away()];
  }

  // ---- unrolling a run -----------------------------------------------------------------

  lemma LostNow(s: System, step: Step, e: int)
    requires Enabled(s, step) && Loses(s, step, e)
    ensures Legal(s, [step]) && LostIn(s, [step], e)
  {
    assert [step][1..] == [];
  }

  lemma LostLater(s: System, step: Step, next: System, rest: seq<Step>, e: int)
    requires Enabled(s, step) && Next(s, step) == next && Legal(next, rest) && LostIn(next, rest, e)
    ensures Legal(s, [step] + rest) && LostIn(s, [step] + rest, e)
  {
    assert ([step] + rest)[1..] == rest;
  }

  lemma LostForGood(s: System, steps: seq<Step>)
    requires Init(s) && ORGANISM in s.everIds && Legal(s, steps) && LostIn(s, steps, ORGANISM)
    ensures !Held(Run(s, steps), ORGANISM)
  {
    InitOk(s);
    RunHeldIff(s, steps, ORGANISM);
  }

  // ---- a delivery handled before the ACK -----------------------------------------------

  const JOURNAL := Decide("m", Journaled(0))
  const POST_ACK := Post(0, AckLetter("m", ORGANISM))
  const POST_IN := Post(0, InLetter(Delivery()))
  const DELIVER := Local.In(Delivery(), Ready())

  /** Capture, journal for the same world, post, deliver: the ACK has not been handled yet. */
  function BounceBack(): seq<Step> {
    [Act(0, CAPTURE)] + ([JOURNAL] + ([POST_IN] + [Act(0, DELIVER)]))
  }

  lemma JournalStep()
    ensures var s := Sys(Away(), {}, map[], MINTED);
      Enabled(s, JOURNAL) && Next(s, JOURNAL) == Sys(Away(), {}, BOUNCED, MINTED)
  {
  }

  lemma PostInStep(wire: set<(nat, Letter)>)
    ensures var s := Sys(Away(), wire, BOUNCED, MINTED);
      Enabled(s, POST_IN) && Next(s, POST_IN) == Sys(Away(), wire + {IN_LETTER}, BOUNCED, MINTED)
  {
    DeliveryIsFine();
  }

  lemma DeliveryIsTakenForACopy()
    ensures Local.Allowed(Away(), DELIVER) && OnlyRemembered(Away(), Delivery(), Ready())
  {
    DeliveryIsFine();
    IdIsFolded();
  }

  lemma DeliveryLoses()
    ensures var s := Sys(Away(), {IN_LETTER}, BOUNCED, MINTED);
      Enabled(s, Act(0, DELIVER)) && Loses(s, Act(0, DELIVER), ORGANISM)
  {
    DeliveryIsTakenForACopy();
    IdIsFolded();
  }

  /** A delivery back to its origin that is handled before the ACK finds the organism in flight
      from there and is taken for a copy: nothing stands up, and the frozen body holds nothing. */
  lemma BounceBackLoses()
    ensures var s := Sys(Resident(), {}, map[], map[]);
      && Init(s) && Legal(s, BounceBack()) && LostIn(s, BounceBack(), ORGANISM)
      && Held(s, ORGANISM) && !Held(Run(s, BounceBack()), ORGANISM)
  {
    var s := Sys(Resident(), {}, map[], map[]);
    StartIsInit();
    assert Holds(s, InBody(0, 0), ORGANISM);
    BounceBackLost();
    LostForGood(s, BounceBack());
  }

  lemma BounceBackLost()
    ensures var s := Sys(Resident(), {}, map[], map[]); Legal(s, BounceBack()) && LostIn(s, BounceBack(), ORGANISM)
  {
    var last := [Act(0, DELIVER)];
    DeliveryLoses();
    LostNow(Sys(Away(), {IN_LETTER}, BOUNCED, MINTED), Act(0, DELIVER), ORGANISM);
    PostInStep({});
    assert {} + {IN_LETTER} == {IN_LETTER};
    LostLater(Sys(Away(), {}, BOUNCED, MINTED), POST_IN, Sys(Away(), {IN_LETTER}, BOUNCED, MINTED), last, ORGANISM);
    JournalStep();
    LostLater(Sys(Away(), {}, map[], MINTED), JOURNAL, Sys(Away(), {}, BOUNCED, MINTED), [POST_IN] + last, ORGANISM);
    CaptureStep();
    LostLater(Sys(Resident(), {}, map[], map[]), Act(0, CAPTURE), Sys(Away(), {}, map[], MINTED),
      [JOURNAL] + ([POST_IN] + last), ORGANISM);
  }

  // ---- a late copy of the ACK ----------------------------------------------------------

  const BOTH := {ACK_LETTER, IN_LETTER}

  /** Capture, journal for the same world, post both letters; the ACK and the delivery are
      handled in order, and then the ACK once more. */
  function LateAck(): seq<Step> {
    [Act(0, CAPTURE)] + ([JOURNAL] + ([POST_ACK] + ([POST_IN] + Handled())))
  }

  function Handled(): seq<Step> {
    [Act(0, ACK)] + ([Act(0, DELIVER)] + [Act(0, ACK)])
  }

  lemma PostAckStep()
    ensures var s := Sys(Away(), {}, BOUNCED, MINTED);
      Enabled(s, POST_ACK) && Next(s, POST_ACK) == Sys(Away(), {ACK_LETTER}, BOUNCED, MINTED)
  {
    assert {} + {ACK_LETTER} == {ACK_LETTER};
  }

  lemma LateAckHits()
    ensures var s := Sys(Back(), BOTH, BOUNCED, MINTED);
      Enabled(s, Act(0, ACK)) && Loses(s, Act(0, ACK), ORGANISM)
  {
    assert FindBodyById(Back().game, ORGANISM) == Some(1);
  }

  lemma HandledLoses()
    ensures var s := Sys(Away(), BOTH, BOUNCED, MINTED); Legal(s, Handled()) && LostIn(s, Handled(), ORGANISM)
  {
    LateAckHits();
    LostNow(Sys(Back(), BOTH, BOUNCED, MINTED), Act(0, ACK), ORGANISM);
    DeliveryStands();
    ActsTo(Gone(), BOTH, BOUNCED, MINTED, DELIVER, Back());
    LostLater(Sys(Gone(), BOTH, BOUNCED, MINTED), Act(0, DELIVER), Sys(Back(), BOTH, BOUNCED, MINTED),
      [Act(0, ACK)], ORGANISM);
    AckSettles();
    ActsTo(Away(), BOTH, BOUNCED, MINTED, ACK, Gone());
    LostLater(Sys(Away(), BOTH, BOUNCED, MINTED), Act(0, ACK), Sys(Gone(), BOTH, BOUNCED, MINTED),
      [Act(0, DELIVER)] + [Act(0, ACK)], ORGANISM);
  }

  lemma LateAckLost()
    ensures var s := Sys(Resident(), {}, map[], map[]); Legal(s, LateAck()) && LostIn(s, LateAck(), ORGANISM)
  {
    HandledLoses();
    PostInStep({ACK_LETTER});
    assert {ACK_LETTER} + {IN_LETTER} == BOTH;
    LostLater(Sys(Away(), {ACK_LETTER}, BOUNCED, MINTED), POST_IN, Sys(Away(), BOTH, BOUNCED, MINTED),
      Handled(), ORGANISM);
    PostAckStep();
    LostLater(Sys(Away(), {}, BOUNCED, MINTED), POST_ACK, Sys(Away(), {ACK_LETTER}, BOUNCED, MINTED),
      [POST_IN] + Handled(), ORGANISM);
    JournalStep();
    LostLater(Sys(Away(), {}, map[], MINTED), JOURNAL, Sys(Away(), {}, BOUNCED, MINTED),
      [POST_ACK] + ([POST_IN] + Handled()), ORGANISM);
    CaptureStep();
    LostLater(Sys(Resident(), {}, map[], map[]), Act(0, CAPTURE), Sys(Away(), {}, map[], MINTED),
      [JOURNAL] + ([POST_ACK] + ([POST_IN] + Handled())), ORGANISM);
  }

  /** An organism that came back to its origin is destroyed by a late copy of the ACK of the
      migration it came back by. */
  lemma LateAckLoses()
    ensures var s := Sys(Resident(), {}, map[], map[]);
      && Init(s) && Legal(s, LateAck()) && LostIn(s, LateAck(), ORGANISM)
      && Held(s, ORGANISM) && !Held(Run(s, LateAck()), ORGANISM)
  {
    var s := Sys(Resident(), {}, map[], map[]);
    StartIsInit();
    assert Holds(s, InBody(0, 0), ORGANISM);
    LateAckLost();
    LostForGood(s, LateAck());
  }
}
