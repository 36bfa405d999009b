# Bibites multiverse mod: a verified model

The mod in `bibites-mod/src` moves organisms between simulation worlds through a sidecar. This
project models its logic in Dafny and proves what the mod is for: that no organism runs in two
worlds at once, that every delivery is answered once, that an organism leaves by the right edge,
that a species keeps its identity across worlds, and that a save is never lost.

Run `dafny verify dfyconfig.toml` to check everything.

## How it is laid out

| file | what it holds |
|---|---|
| `Lists.dfy` | facts about lists that several files share |
| `ContractA.dfy` | edges, canonical order, string rules, constants of the wire contract |
| `Worlds.dfy` | one world as a value; each custody operation as a function on it |
| `Migration.dfy` | the exporter, importer and game bridge as objects updated in place, each method proved equal to its function |
| `OperationLaws.dfy` | what each of those functions means, field by field, stated without them |
| `LocalCustody.dfy` | what one world keeps over every run |
| `CustodySystem.dfy` | several worlds and an adversarial wire: at most one active copy |
| `Conservation.dfy`, `Losses.dfy` | the same system: exactly which steps lose an organism, and two runs that do |
| `Client.dfy`, `ClientLaws.dfy`, `Answers.dfy` | the mutation queue, why all the client does is a run of custody operations, and why every delivery is answered exactly once |
| `EdgeStatus.dfy`, `StatusRuns.dfy` | EDGE_STATUS snapshots, and their confluence |
| `ExportEdges.dfy`, `BorderGeometry.dfy`, `CornerRule.dfy`, `BodyTick.dfy` | the declared edges, the strip, the corner rule, one physics tick |
| `Cooldowns.dfy` | what a refusal costs and what an arrival's immunity gives, over whole runs |
| `SpeciesNames.dfy`, `MigrationExclusion.dfy` | name equality and the exclusion list |
| `TextLaws.dfy` | what trimming, edge letters and both kinds of list settings mean, character by character |
| `SpeciesRegistry.dfy`, `RegistryLaws.dfy` | the registry, its invariants, its cache |
| `CrossingStats.dfy`, `SpeciesHistoryGuard.dfy`, `OrganismLinks.dfy`, `JsonDiff.dfy`, `LineageCollector.dfy` | self-contained algorithms |
| `SaveNames.dfy`, `WorldSaver.dfy` | save files as crash-safe steps |
| `Transport.dfy` | the send queue and its semaphore as atomic steps |

## What is assumed

- A game-thread handler is one atomic step; only the transport runs beside it.
- The sidecar's program is not part of this model. `CustodySystem.Justified` says all that is
  assumed of it: one decision per migration id, refused or journaled for one destination; a
  MIGRATE_OUT_NACK only for a refused id; a MIGRATE_IN only for a journaled id, to its one
  destination, naming the organism the frame named. Nothing is assumed about MIGRATE_OUT_ACKs, and
  nothing about delivery: letters may be lost, repeated, delayed and reordered.
- A restored body is a new object under the id the frame names, a birth mints an id never used
  before, and a capture mints a new migration id, in no ledger and written in lower case.
  `LocalCustody.Allowed` and `CustodySystem.Enabled` write this out.
- In `CustodySystem` each world stays in one session with any number of reconnects, because the
  dedup ledger is deliberately forgotten when the session changes; `Answers.NewSessionSpawnsAgain`
  shows what that allows.
- Clocks, random draws, what serialization and restore yield, and the verdict of the wall-clock
  budget are inputs. The budget may stop a batch after any entry.
- In `WorldSaver` what each write, rename and deletion does is an input: a rename or deletion is
  atomic but may report failure with or without having taken effect. Nobody else writes this world's
  files, and a writer that does not throw leaves its own file or none.

## Where the code departs from what one would claim

- A cooldown is safe but may never end: a refused organism can be exported again exactly when an
  edge other than the one that refused it is declared (`Cooldowns.ExportedAgainIff`).
- An organism always has at most one holder but not always one: `Conservation.StepHeldIff` lists
  the steps that lose it. Two are the protocol's own: a delivery back to its origin that is
  handled before the ACK (`Losses.BounceBackLoses`), and a late copy of an ACK that finds the
  organism living there again (`Losses.LateAckLoses`).
- The registry cache and its rollback are right exactly for names in normal form:
  `RegistryLaws.CacheIsScannedIff`, `RegistryLaws.RollbackClearsCacheIff`. This mod exports names
  in normal form (`SpeciesNames.ExportedNameIsTidy`), but the wire rule also admits others
  (`SpeciesNames.WireAdmitsRawNames`).
- A rollback is for a species just created: with descendants and a parent it leaves a wrong root
  (`RegistryLaws.RollbackKeepsForest`).
- "The previous save is untouched" in the failure line holds exactly when the first rename did not
  take effect (`Saves.FailedSaveKeepsLiveIff`); otherwise the previous save is under its backup
  name, and there may be no live file (`Saves.SaveMayLoseLive`).
- Pruning world `Alpha` also counts and deletes the rotations of a world `Alpha-Beta`:
  `SaveNames.SelectedIff`, `Saves.PruneIsOwnIff`.
- A drain loses a wakeup exactly when a Send falls between its two halves and its release is
  drained with the rest (`Transport.DrainEndsAwakeIff`, `Transport.DrainRace`); its frame then
  waits for the next Send (`Transport.DrainStrands`).
- The history guard's clamp can leave a save short: `HistoryGuard.RepairMakesRoom` says exactly
  when, `HistoryGuard.WithoutRoom` gives a case. It takes a window of more than 65535 points,
  which the shipped configuration does not produce.
- The capture comment derives "never two opposite candidates" from S > W; the direction test alone
  gives it (`CornerRule.AtMostTwoCandidates`).

## Model

| member | source | states |
|---|---|---|
| CustodySystem.AtMostOneActiveCopy | bibites-mod/src/MigrationExporter.cs:131-426 | over every run of several worlds and a sidecar meeting the stated assumptions, under loss, duplication, delay, reordering, timeouts and reconnects, no two active bodies anywhere have the same organism id |
| CustodySystem.CustodyIsExclusive | bibites-mod/src/MigrationImporter.cs:218-233 | while a migration is undecided, or journaled and not yet remembered at its destination, no world runs its organism and no other migration of it is open |
| CustodySystem.StepKeepsSystem | bibites-mod/src/MigrationExporter.cs:231-426 | every step of a world, of the wire or of a sidecar decision keeps the system invariant |
| CustodySystem.RunKeeps | bibites-mod/src/MigrationExporter.cs:271-426 | so does every run |
| CustodySystem.DecideUnique | bibites-mod/src/MigrationExporter.cs:388-401 | deciding a migration moves custody to the frozen body or to the destination, never to two holders |
| CustodySystem.BeginUnique | bibites-mod/src/MigrationExporter.cs:231-245 | a capture moves custody from the body to the migration |
| CustodySystem.InUnique | bibites-mod/src/MigrationImporter.cs:218-375 | an arrival moves custody from the migration to at most one body |
| CustodySystem.OthersMakeNoBody | bibites-mod/src/MigrationImporter.cs:300-375 | nothing but a birth or an arrival makes a body usable under an id it did not have |
| Conservation.Conserved | bibites-mod/src/MigrationExporter.cs:131-426 | over every run an organism that lives in some world keeps exactly one holder, a body or an open migration, unless one of the named losing steps occurs, and then it has none |
| Conservation.RunHeldIff | bibites-mod/src/MigrationExporter.cs:131-426 | an organism has a holder after a run exactly when it had one before and no step of the run lost it |
| Conservation.StepHeldIff | bibites-mod/src/MigrationExporter.cs:325-426 | one step: an organism loses its holder exactly by dying, by an ACK that destroys the body holding it, by a delivery taken for a copy while it is in flight, or by a refusal that finds its body gone |
| Conservation.JournaledAckLosesIff | bibites-mod/src/MigrationExporter.cs:325-350 | an ACK for a journaled id costs an organism exactly when its record is gone and the organism it names lives there |
| Losses.BounceBackLoses | bibites-mod/src/MigrationImporter.cs:218-233 | witness: captured, journaled for its own world and delivered back before the ACK is handled, the organism is taken for a copy and ends with no holder |
| Losses.LateAckLoses | bibites-mod/src/MigrationExporter.cs:325-350 | witness: after the round trip back to its origin a second copy of the ACK destroys the living organism, which ends with no holder |
| Conservation.CopyIsInFlight | bibites-mod/src/MigrationImporter.cs:218-233 | a delivery of an open migration is taken for a copy only while the organism is in flight from that very world |
| LocalCustody.SessionKeepsCustody | bibites-mod/src/MigrationExporter.cs:131-426 | over every armed session: the two in-flight tables are mutually inverse, frozen bodies are exactly the in-flight ones, each id has at most one usable body, each migration id one frame |
| LocalCustody.CustodyMeans | bibites-mod/src/MigrationExporter.cs:139-145 | the invariant read off: byEntity and inFlight are inverse, a body is frozen exactly when a record names it, two usable bodies never share an id |
| LocalCustody.OnlyItsOwnAnswerThaws | bibites-mod/src/MigrationExporter.cs:325-426 | a frozen body is revived exactly by a NACK, and destroyed exactly by an ACK, for its own migration id (or by the game); otherwise it stays frozen with the same frame |
| LocalCustody.EveryResendIsIdentical | bibites-mod/src/MigrationExporter.cs:271-293 | over a session any two MIGRATE_OUTs with the same migration id are the identical frame |
| LocalCustody.ReplaySendsKnown | bibites-mod/src/MigrationExporter.cs:271-293 | a replay puts no frame on the wire that was not sent before |
| LocalCustody.StepKeeps | bibites-mod/src/MigrationExporter.cs:131-426 | every atomic operation keeps the custody invariant |
| LocalCustody.DedupIsComplete | bibites-mod/src/MigrationImporter.cs:226-233 | past both dedup keys no usable body has the organism id |
| LocalCustody.FindIsExact | bibites-mod/src/GameBridge.cs:289-312 | in a sound game the scan by id finds the one live body with that id, or there is none |
| Migration.MigrationExporter.Begin | bibites-mod/src/MigrationExporter.cs:131-265 | the capture refuses an unassigned or in-flight id, blocks what cannot travel, and otherwise freezes, records and sends, all as one function of the old world |
| Migration.MigrationExporter.Replay | bibites-mod/src/MigrationExporter.cs:271-293 | appends to what was sent exactly one MIGRATE_OUT for each id in flight, the stored frame, and nothing else; each record has its send time set and both flags cleared, and nothing else changes |
| Migration.MigrationExporter.Timeouts | bibites-mod/src/MigrationExporter.cs:295-323 | only the two flags of overdue records change |
| Migration.MigrationExporter.Ack | bibites-mod/src/MigrationExporter.cs:325-350 | a known id is settled and its body destroyed; an unknown id destroys the live body the ACK names, if any |
| Migration.MigrationExporter.Nack | bibites-mod/src/MigrationExporter.cs:388-426 | the record is settled, the body revived, a cooldown set; the edge to close is the one the organism left by |
| Migration.MigrationExporter.IsBlocked | bibites-mod/src/MigrationExporter.cs:89-118 | the verdict and the new cooldown table, including the one-way requireExit flag |
| Migration.MigrationExporter.DestroyDeparted | bibites-mod/src/MigrationExporter.cs:352-385 | only a usable body is destroyed, and its immunity and cooldown go with it |
| Migration.MigrationImporter.Handle | bibites-mod/src/MigrationImporter.cs:116-392 | the new tables, bodies and sent frames are those of HandleIn, whose answers and effects RefusedIff, AdmittedIff, RefusalKeeps, CopyIsRemembered and ArrivalMeans state by the fields of the delivery |
| Migration.MigrationImporter.Restore | bibites-mod/src/MigrationImporter.cs:243-375 | a restore that yields nothing, no body, a failed relink or a standing body, with its answer |
| Migration.MigrationImporter.Handshake | bibites-mod/src/MigrationImporter.cs:73-89 | the ledger is cleared exactly when the session changes |
| Migration.MigrationImporter.Immune | bibites-mod/src/MigrationImporter.cs:92-106 | the immunity verdict and the expiry of its window |
| Migration.MigrationImporter.NackWithoutLooking | bibites-mod/src/MigrationImporter.cs:534-557 | an answer for a usable id without a look at the world |
| Migration.GameBridge.Find | bibites-mod/src/GameBridge.cs:289-312 | the first usable tracked body with that id |
| Migration.GameBridge.Destroy | bibites-mod/src/GameBridge.cs:163-189 | the body is untracked once and marked destroyed |
| Migration.GameBridge.FreezeBody | bibites-mod/src/MigrationExporter.cs:441-449 | untracked, disabled, not simulated |
| Migration.GameBridge.ReviveBody | bibites-mod/src/MigrationExporter.cs:451-472 | a usable body is enabled, simulated and tracked again; a gone one is not |
| OperationLaws.CaptureMeans | bibites-mod/src/MigrationExporter.cs:131-265 | a capture, field by field: an unassigned or in-flight id changes nothing, what cannot travel is blocked for good, a failed serialization for the default time, and otherwise the body is frozen, filed under the new id and one frame with its id, edge and content is sent |
| OperationLaws.TimeoutsMean | bibites-mod/src/MigrationExporter.cs:295-323 | a record is flagged exactly when it was not yet and five seconds have passed since it was sent; nothing else changes |
| OperationLaws.ReplayMeans | bibites-mod/src/MigrationExporter.cs:271-293 | a reconnect sends the stored frame of every record in flight exactly once and no other MIGRATE_OUT, and restarts each record |
| OperationLaws.BlockedMeans | bibites-mod/src/MigrationExporter.cs:89-118 | blocked while permanent, while not yet seen clear of the refused edge, and until the time; a released organism has no cooldown left and no other changes |
| OperationLaws.ImmuneMeans | bibites-mod/src/MigrationImporter.cs:92-106 | immune exactly before the recorded time; afterwards the entry is gone |
| OperationLaws.HandshakeMeans | bibites-mod/src/MigrationImporter.cs:73-89 | the ledger is kept for its own session and empty for any other |
| OperationLaws.RefusedIff | bibites-mod/src/MigrationImporter.cs:116-211 | for every delivery with a usable id: which of the five refusals before the dedup keys is sent, exactly when, with its class, the first failing gate deciding |
| OperationLaws.AdmittedIff | bibites-mod/src/MigrationImporter.cs:213-375 | a delivery gets as far as the dedup keys only with kind bibite, every field, a declared edge, a position in [0,1], the same version and a ready world; then duplicate, failed restore, failed relink or fresh ACK, each exactly when |
| OperationLaws.RefusalKeeps | bibites-mod/src/MigrationImporter.cs:116-331 | a refusal changes no table; a failed relink leaves its body destroyed, any other refusal no body at all |
| OperationLaws.CopyIsRemembered | bibites-mod/src/MigrationImporter.cs:218-233 | a copy is remembered and nothing else changes |
| OperationLaws.ArrivalMeans | bibites-mod/src/MigrationImporter.cs:300-375 | the organism stands live and tracked under its id, its migration is remembered, it is immune for five seconds, and an older cooldown of it is gone |
| OperationLaws.UnhandledMeans | bibites-mod/src/MigrationImporter.cs:534-557 | a refusal without a look at the world: transient, under the delivery's own id, and none without one |
| OperationLaws.NoIdNoAnswer | bibites-mod/src/MigrationImporter.cs:116-130 | a delivery without a usable id changes nothing and is not answered |
| Answers.EveryDeliveryAnsweredOnce | bibites-mod/src/MultiverseClient.cs:319-331 | from arming to disarming, the answers sent counted by id are the usable deliveries received counted by id |
| Answers.OneSpawnPerSession | bibites-mod/src/MigrationImporter.cs:218-233 | a migration id is freshly acknowledged at most once per session, across all reconnects |
| Answers.FreshAckMeansSpawn | bibites-mod/src/MigrationImporter.cs:359-375 | a fresh ACK is sent exactly when a body was left standing |
| Answers.MutationAnswersOnce | bibites-mod/src/MultiverseClient.cs:573-632 | each queued mutation answers its own usable id once and no other |
| Answers.BatchAnswersInOrder | bibites-mod/src/MultiverseClient.cs:573-632 | a batch answers its deliveries in arrival order |
| Answers.PauseConserves | bibites-mod/src/MultiverseClient.cs:634-654 | a pause moves ids from the queue to the answers and loses none |
| Answers.KeptIsTheFilter | bibites-mod/src/MultiverseClient.cs:634-654 | what a pause leaves queued is the order-preserving filter of the entries that are not stale |
| Answers.RefuseAllAnswersInOrder | bibites-mod/src/MultiverseClient.cs:319-331 | an unload answers the whole queue in order |
| Answers.HandshakeKeepsLedgerIff | bibites-mod/src/MigrationImporter.cs:73-89 | a handshake keeps the ledger exactly when it names the session the ledger belongs to |
| Answers.NewSessionSpawnsAgain | bibites-mod/src/MigrationImporter.cs:73-89 | after a new session the same delivery may be spawned again |
| Clients.MultiverseClient.ApplyMutations | bibites-mod/src/MultiverseClient.cs:573-632 | a non-empty call consumes a prefix of one to four entries, in order, and leaves the rest |
| Clients.MultiverseClient.RejectWhilePaused | bibites-mod/src/MultiverseClient.cs:634-654 | the backwards in-place loop refuses the stale deliveries and keeps the rest in order |
| Clients.MultiverseClient.Disarm | bibites-mod/src/MultiverseClient.cs:319-357 | every queued delivery refused, the queue and the tables empty |
| Clients.MultiverseClient.OnConnected | bibites-mod/src/MultiverseClient.cs:442-470 | CONFIG_UPDATE is sent first, then exactly one MIGRATE_OUT for each id in flight, the stored frame; each record restarts; the ledger follows the session |
| Clients.MultiverseClient.OnFrame | bibites-mod/src/MultiverseClient.cs:526-566 | a mutation joins the end of the queue |
| Clients.MultiverseClient.Arm | bibites-mod/src/MultiverseClient.cs:271-317 | a new session starts with empty tables |
| Clients.MultiverseClient.Dispatch | bibites-mod/src/MultiverseClient.cs:656-719 | the world becomes that of ApplyMutation, whose effects the laws below state by kind; the edge reported closed is the one the refused organism left by, and only for EDGE_CLOSED or a size mismatch of a known id |
| ClientLaws.AckSettles | bibites-mod/src/MultiverseClient.cs:656-666 | a dispatched ACK with both fields, for an id in flight: the record, its byEntity entry, its cooldown and its immunity are gone, and the body it froze is not usable |
| ClientLaws.AckOfUnknown | bibites-mod/src/MultiverseClient.cs:656-666 | for an id not in flight: the living organism it names, if any, is destroyed, and nothing else changes |
| ClientLaws.NackSettles | bibites-mod/src/MultiverseClient.cs:668-719 | a dispatched NACK with both fields, for an id in flight: the record is gone, a usable body runs again, and the organism cools at the edge it left by, for good exactly when the class is permanent, otherwise for at least the stated time |
| ClientLaws.IncompleteAnswersChangeNothing | bibites-mod/src/MultiverseClient.cs:656-719 | an answer with a missing field changes nothing |
| ClientLaws.BatchIsRun | bibites-mod/src/MultiverseClient.cs:573-632 | what a batch does is a run of the custody operations its entries stand for, in order, so every custody theorem holds of it |
| ClientLaws.SessionIsRun | bibites-mod/src/MultiverseClient.cs:442-719 | so are a pause, a reconnect and a whole client session |
| ClientLaws.ClientKeepsCustody | bibites-mod/src/MultiverseClient.cs:442-719 | hence after any session of the client the in-flight tables are inverse, frozen bodies are the in-flight ones and no two usable bodies share an id |
| ClientLaws.StaleMeans | bibites-mod/src/MultiverseClient.cs:634-654 | a delivery is stale two seconds after it was queued |
| ClientLaws.PauseRefuses | bibites-mod/src/MultiverseClient.cs:634-654 | everything a pause sends is a transient SIM_NOT_READY, and it changes nothing else of the world |
| ClientLaws.UnloadRefuses | bibites-mod/src/MultiverseClient.cs:319-331 | everything an unload sends is a transient SHUTTING_DOWN, and it changes no table and no body |
| ClientLaws.UnloadForgets | bibites-mod/src/MultiverseClient.cs:333-357 | after an unload nothing is in flight and ledger and immunity are empty |
| StatusRuns.Confluent | bibites-mod/src/MultiverseClient.cs:721-821 | any two traffics of one connection with the same frames, in any order and repetition, end in the same gate |
| StatusRuns.ConfluentIff | bibites-mod/src/MultiverseClient.cs:721-821 | for given frames every order and repetition agrees exactly when the frames of the highest epoch agree |
| StatusRuns.HighestEpochDecides | bibites-mod/src/MultiverseClient.cs:721-821 | the frame with the highest positive epoch decides, edge by edge, except where a refusal closed an edge since; with none, every edge is closed |
| StatusRuns.HighestWins | bibites-mod/src/MultiverseClient.cs:721-821 | without local closes the gate is that frame's snapshot |
| StatusRuns.OpenMeans | bibites-mod/src/MultiverseClient.cs:744-821 | an edge is open exactly when it is declared and the first element that speaks about it opens it with no peer-size mismatch |
| StatusRuns.SlotMeans | bibites-mod/src/MultiverseClient.cs:744-821 | open flag, reason and peer size of an edge's slot, each from the first element that speaks about it |
| StatusRuns.CloseMeans | bibites-mod/src/MultiverseClient.cs:896-915 | a local close changes the one slot, with the reason given, and only of a declared open edge |
| StatusRuns.FreshMeans | bibites-mod/src/MultiverseClient.cs:451-454 | a connection starts at epoch 0 with every declared edge closed for want of a peer |
| StatusRuns.SizesAgreeIff | bibites-mod/src/ContractA.cs:428-450 | two half-extents agree exactly when they differ by at most a millionth of the larger, either way round |
| EdgeStatus.EdgeGate.Build | bibites-mod/src/MultiverseClient.cs:744-821 | the loop over the elements builds exactly the full-state snapshot; first element wins |
| EdgeStatus.EdgeGate.OnStatus | bibites-mod/src/MultiverseClient.cs:721-821 | a missing epoch, an epoch not above the last or a missing array changes nothing |
| EdgeStatus.EdgeGate.OnConnected | bibites-mod/src/MultiverseClient.cs:451-454 | a connection starts over with every edge closed |
| EdgeStatus.EdgeGate.CloseEdgeUntilNextStatus | bibites-mod/src/MultiverseClient.cs:896-915 | only a declared open edge is closed, and only until the next status |
| EdgeStatus.EdgeGate.FillFrom | bibites-mod/src/MultiverseClient.cs:784-805 | the slot an element describes, peer-size check included |
| EdgeStatus.EdgeStates.Set | bibites-mod/src/EdgeStates.cs:61-68 | exactly one slot of the snapshot under construction changes |
| EdgeStatus.EdgeStates.CopyWithEdgeClosed | bibites-mod/src/EdgeStates.cs:95-109 | the published snapshot never changes; the copy has one edge closed |
| EdgeStatus.EdgeStates.constructor | bibites-mod/src/EdgeStates.cs:46-59 | every declared edge closed with the reason, the others unset |
| ExportEdges.MultiverseConfig.ParseExportEdges | bibites-mod/src/MultiverseConfig.cs:552-633 | the export set as a function of the text, with the enabled flag |
| ExportEdges.ReadParts | bibites-mod/src/MultiverseConfig.cs:588-612 | a part that is no edge, or an edge named twice, declares nothing; otherwise the named edges in canonical order |
| ExportEdges.SortByRank | bibites-mod/src/MultiverseConfig.cs:612 | the same edges in strict rank order |
| ExportEdges.OrderDoesNotMatter | bibites-mod/src/MultiverseConfig.cs:588-612 | two part lists with the same parts declare the same edges |
| ExportEdges.SettingOrderDoesNotMatter | bibites-mod/src/MultiverseConfig.cs:560-612 | two settings that are no keyword and list the same parts declare the same edges |
| ExportEdges.DeclaredIsRankSorted | bibites-mod/src/MultiverseConfig.cs:612 | every setting declares its edges in rank order, never the missing edge |
| ExportEdges.NoneTwiceIff | bibites-mod/src/MultiverseConfig.cs:599-608 | no edge comes twice exactly when there are as many edges as parts |
| ExportEdges.SortedIsUnique | bibites-mod/src/MultiverseConfig.cs:612 | a rank-sorted list is determined by its members |
| ExportEdges.KeywordMustStandAlone | bibites-mod/src/MultiverseConfig.cs:582-588 | any setting that is no keyword but has one among its parts declares nothing |
| TextLaws.SettingMeans | bibites-mod/src/MultiverseConfig.cs:552-633 | for every text: blank, all and * declare the four edges, none and off nothing, in any case and with blanks around; anything else the edges its parts name, in rank order, provided every part names one and none comes twice |
| TextLaws.SplitMeans | bibites-mod/src/MultiverseConfig.cs:588 | the parts are the maximal runs without comma, semicolon, space or tab, once each, from left to right |
| TextLaws.EdgeLetters | bibites-mod/src/ContractA.cs:452-479 | a text names an edge exactly when it is its letter, in either case, with nothing but blanks around it |
| TextLaws.TrimIsUnique | bibites-mod/src/ContractA.cs:455-461 | what a text trims to is the one part of it with blanks around and none at its ends |
| CornerRule.ChooseEdge | bibites-mod/src/MultiverseClient.cs:1278-1312 | the loop returns the declared open edge with the largest positive outward component, ties to the canonical order, or none |
| CornerRule.ChosenIsUnique | bibites-mod/src/ContractA.cs:493-503 | the corner rule leaves exactly one answer |
| CornerRule.ChoiceIsChosen | bibites-mod/src/MultiverseClient.cs:1278-1312 | and always has one |
| CornerRule.AtMostTwoCandidates | bibites-mod/src/MultiverseClient.cs:1285-1304 | at most two edges are candidates and never two opposite ones, whatever the strip width |
| CornerRule.EastTakesTheTie | bibites-mod/src/ContractA.cs:481-492 | with both lanes open an organism leaves east exactly when vx >= vy |
| CornerRule.ClosedLanesDoNotPin | bibites-mod/src/MultiverseClient.cs:1296-1304 | a closed edge never keeps an organism from an open one |
| CornerRule.ChoiceIgnoresTyping | bibites-mod/src/MultiverseConfig.cs:588-612 | the answer is the same for every order the edges were typed in |
| BodyTicks.BodyWatch.OnBodyTick | bibites-mod/src/MultiverseClient.cs:1203-1318 | the whole tick: band filter, in-flight, immunity, cooldown, policy, choice, capture |
| BodyTicks.TickExportsIff | bibites-mod/src/MultiverseClient.cs:1203-1318 | a tick sends a frame exactly when every conjunct of the capture condition holds and the organism serializes; then one frame, this organism, the chosen edge |
| BodyTicks.TickSpares | bibites-mod/src/MultiverseClient.cs:1203-1318 | a tick changes no other organism's body, immunity or cooldown, and not the ledger |
| Cooldowns.NewcomerStays | bibites-mod/src/MigrationImporter.cs:92-106 | over every run from a delivery that leaves a body standing to the end of its immunity window, without another arrival or departure of it, no frame of it is sent and it is not in flight |
| Borders.BandIsAProjection | bibites-mod/src/BorderGeometry.cs:165-180 | a capture band is the half plane where the outward projection reaches S - W |
| Borders.SidesMean | bibites-mod/src/BorderGeometry.cs:165-246 | band, quarter, line and clear side of each of the four edges in its own coordinate |
| Borders.StripNumbers | bibites-mod/src/BorderGeometry.cs:39-59 | the strip is 2% of the half-extent but never under 20, or as configured; margin and hysteresis follow from it |
| Borders.ExitPositionMeans | bibites-mod/src/BorderGeometry.cs:248-262 | the position sent is the proportion along the edge, cut off at its ends |
| Borders.NoBoomerang | bibites-mod/src/BorderGeometry.cs:191-194 | an organism leaving through an edge is not leaving at the opposite one with the same velocity |
| Borders.OppositeBandsMeetIff | bibites-mod/src/BorderGeometry.cs:165-180 | opposite bands meet exactly when S <= W |
| Borders.InBandIsNotClear | bibites-mod/src/BorderGeometry.cs:225-232 | inside a band one is not clear of its strip |
| Borders.EscapeIff | bibites-mod/src/BorderGeometry.cs:165-232 | for every geometry some spot is in a declared band and clear of the strip of an edge exactly when another edge is declared |
| Borders.MidpointEscapes | bibites-mod/src/BorderGeometry.cs:165-232 | when S exceeds the strip and its hysteresis, the midpoint of any other edge is such a spot |
| Borders.EntryPointInNoBandIff | bibites-mod/src/BorderGeometry.cs:264-282 | an arrival stands in none of the four bands exactly when S > W + margin/2 |
| Borders.EntryPointInside | bibites-mod/src/BorderGeometry.cs:264-282 | for S >= W + margin it stands inside the square, off every band and corner |
| Borders.EntryRoundTrip | bibites-mod/src/BorderGeometry.cs:248-282 | its normalized position differs from the one sent by at most (W + margin) / 2S, and needs no clamping |
| Borders.BorderGeometry.OnSimulationSizeChanged | bibites-mod/src/BorderGeometry.cs:105-119 | the new half-extent is kept, and reported unless approximately the old one |
| Cooldowns.RefusedOrganismWaits | bibites-mod/src/MigrationExporter.cs:89-118 | after a transient NACK no MIGRATE_OUT of the organism is sent before a tick found it clear of the refused strip and then a tick found the cooldown over |
| Cooldowns.RefusedForGood | bibites-mod/src/MigrationExporter.cs:96-99 | after a permanent NACK none is ever sent |
| Cooldowns.NothingUntilReleased | bibites-mod/src/MigrationExporter.cs:89-118 | the same for any cooldown, however it was set: without a release the run sends nothing of the organism |
| Cooldowns.ExportedAgainIff | bibites-mod/src/MultiverseClient.cs:1233-1318 | for fixed declared edges and geometry some run exports a refused organism again exactly when an edge other than the one that refused it is declared |
| Cooldowns.CanBeReleasedIff | bibites-mod/src/MultiverseClient.cs:1233-1258 | and some run releases it exactly then |
| Cooldowns.OneEdgeNeverReleases | bibites-mod/src/MultiverseClient.cs:1233-1258 | the only-if half, for ticks of any geometry: with no other edge declared no run releases the organism or sends a frame of it |
| Cooldowns.NackCools | bibites-mod/src/MigrationExporter.cs:400-437 | a NACK leaves the organism revived, not in flight, cooling at the edge it left by for at least the default time |
| Cooldowns.TickStep | bibites-mod/src/MultiverseClient.cs:1233-1318 | a tick that does not release keeps the cooldown, up to the exit flag, and sends nothing of the organism |
| Cooldowns.OtherStep | bibites-mod/src/MigrationExporter.cs:271-426 | no other step disturbs a cooling organism |
| SpeciesNames.NormalizeSpeciesWhitespace | bibites-mod/src/ContractA.cs:681-713 | the pending-space loop computes the words joined by single spaces |
| SpeciesNames.NormalizedKeepsWords | bibites-mod/src/ContractA.cs:681-713 | normalization keeps the words and is idempotent |
| SpeciesNames.WordsAround | bibites-mod/src/ContractA.cs:681-713 | a run without spaces between two spaces or ends is a word, between the words before and the words behind it |
| SpeciesNames.BlankHasNoWords | bibites-mod/src/ContractA.cs:681-713 | and a blank text has none |
| SpeciesNames.NormalizeAlikeIff | bibites-mod/src/ContractA.cs:681-713 | two names normalize alike exactly when their word lists agree |
| SpeciesNames.NormalIffTidy | bibites-mod/src/ContractA.cs:662-679 | a name is its own normal form exactly when it has no edge space, no two spaces in a row and only U+0020 |
| SpeciesNames.HalvesJoinIff | bibites-mod/src/MigrationExclusion.cs:248-269 | joining the normalized halves is normalizing the full name, exactly when neither half normalizes to nothing |
| SpeciesNames.WordsOfJoin | bibites-mod/src/ContractA.cs:681-713 | splitting joined words gives them back |
| Exclusion.MatchesIffListed | bibites-mod/src/MigrationExclusion.cs:104-128 | a species is excluded exactly when both halves have words and some list entry has, word for word, its full name |
| Exclusion.ConfiguredInOrder | bibites-mod/src/MigrationExclusion.cs:104-128 | the published names are in the order in which they first came |
| TextLaws.SplitCommaIff | bibites-mod/src/MigrationExclusion.cs:112 | splitting at commas yields exactly the non-empty list of comma-free texts that joins back to the setting |
| Exclusion.MigrationExclusion.Configure | bibites-mod/src/MigrationExclusion.cs:104-128 | the published list is the comparison list: normalized, non-empty, once each, in configured order |
| Exclusion.MigrationExclusion.Excludes | bibites-mod/src/MigrationExclusion.cs:197-241 | the verdict is the remembered one, or a fresh one that is remembered from then on; while no species was renamed it is the one a fresh comparison gives; exempted and unnamed organisms are never excluded |
| Exclusion.MigrationExclusion.Decide | bibites-mod/src/MigrationExclusion.cs:248-269 | both halves normalized, half a name never matches |
| Exclusion.MigrationExclusion.Note | bibites-mod/src/MigrationExclusion.cs:272-309 | once per organism, up to the cap |
| Exclusion.MigrationExclusion.AllowOnce | bibites-mod/src/MigrationExclusion.cs:177-190 | an exemption is recorded only while the list is non-empty |
| Exclusion.MigrationExclusion.Forget | bibites-mod/src/MigrationExclusion.cs:164-168 | a departed id carries nothing forward |
| Exclusion.MigrationExclusion.Reset | bibites-mod/src/MigrationExclusion.cs:153-161 | a new world keeps the list and forgets the rest |
| SpeciesNames.NormalizedHalfIsValidIff | bibites-mod/src/ContractA.cs:722-752 | a normalized half fits the wire rule exactly when it has words and is short enough |
| SpeciesNames.ExportedNameIsTidy | bibites-mod/src/SpeciesRegistry.cs:114-120 | a name exported by this mod arrives in normal form |
| SpeciesNames.WireAdmitsRawNames | bibites-mod/src/ContractA.cs:722-752 | the wire rule alone admits halves with inner double spaces |
| Registry.SpeciesRegistry.AdoptTemplate | bibites-mod/src/SpeciesRegistry.cs:339-359 | a created species the organism did not bind is taken out again, any other stays |
| Registry.FindMeans | bibites-mod/src/SpeciesRegistry.cs:450-493 | a lookup misses exactly when no recorded species has the same words, and prefers a byte-for-byte match |
| RegistryLaws.FindIsFirst | bibites-mod/src/SpeciesRegistry.cs:450-493 | a lookup gives the first recorded species with the name byte for byte, else the first with the same words, else none |
| Registry.SpeciesRegistry.FindByName | bibites-mod/src/SpeciesRegistry.cs:450-493 | the scanning loop, with the number of alike records |
| Registry.SpeciesRegistry.Reactivate | bibites-mod/src/SpeciesRegistry.cs:504-527 | inserted where the recorded order puts it |
| Registry.SpeciesRegistry.CreateLocal | bibites-mod/src/SpeciesRegistry.cs:544-601 | behind its parent in both lists, under its root, among its children |
| Registry.SpeciesRegistry.Resolve | bibites-mod/src/SpeciesRegistry.cs:189-304 | answer, lists and cache are those of Resolved, which CreatesIff, FoundMeans, FoundedMeans, FoundedUnderParent, FoundedAlone and AnswerIsRemembered state by words and lists |
| RegistryLaws.CreatesIff | bibites-mod/src/SpeciesRegistry.cs:205-281 | a species is created exactly when the name is not cached in this tick and no recorded species has its words |
| RegistryLaws.FoundMeans | bibites-mod/src/SpeciesRegistry.cs:228-247 | a scanned and found species is the one the name means; it is active then, in recorded order, and nothing else changes |
| RegistryLaws.FoundedMeans | bibites-mod/src/SpeciesRegistry.cs:260-304 | a created species has the arrival's two halves unchanged, a new id and no children; it has a parent exactly when the arrival names one and a recorded species has those words; no other species changes but the parent's list of children |
| RegistryLaws.FoundedUnderParent | bibites-mod/src/SpeciesRegistry.cs:267-281 | that parent is the species its name means, a byte-for-byte match if there is one; the new species is its last child, carries its root, and stands directly behind it in the recorded list |
| RegistryLaws.FoundedAlone | bibites-mod/src/SpeciesRegistry.cs:544-601 | without such a parent it is its own root at the end of both lists |
| RegistryLaws.AnswerIsRemembered | bibites-mod/src/SpeciesRegistry.cs:211-281 | within a tick an answer is remembered under the words of its name and given again without a scan; a new tick starts empty |
| Registry.SpeciesRegistry.Rollback | bibites-mod/src/SpeciesRegistry.cs:395-431 | taken out of the cache under its name, of both lists and of its parent |
| Registry.InOrderIsSublist | bibites-mod/src/SpeciesRegistry.cs:496-503 | active in recorded order is the duplicate-free sublist its members pick out |
| Registry.InsertKeepsOrder | bibites-mod/src/SpeciesRegistry.cs:504-527 | inserting at the first later index keeps the order |
| RegistryLaws.ReactivateKeeps | bibites-mod/src/SpeciesRegistry.cs:504-527 | reactivation keeps lists and forest |
| RegistryLaws.CreateKeeps | bibites-mod/src/SpeciesRegistry.cs:544-601 | creation keeps the active list an order-preserving sublist and every root the top of its chain |
| RegistryLaws.CreatedBehindParent | bibites-mod/src/SpeciesRegistry.cs:575-590 | a created species stands right behind its parent in the recorded list |
| RegistryLaws.RollbackUndoesCreate | bibites-mod/src/SpeciesRegistry.cs:395-418 | create then roll back restores both lists and every other species, the parent's children included |
| RegistryLaws.RollbackKeeps | bibites-mod/src/SpeciesRegistry.cs:395-418 | and leaves lists and forest sound |
| RegistryLaws.RollbackKeepsForest | bibites-mod/src/SpeciesRegistry.cs:395-418 | taking a species out keeps every root and every parent link right exactly when it has no children or had no parent |
| RegistryLaws.ResolveKeeps | bibites-mod/src/SpeciesRegistry.cs:205-281 | names in normal form keep every cached answer equal to a scan |
| RegistryLaws.ResolveKeepsRoster | bibites-mod/src/SpeciesRegistry.cs:205-281 | whatever the name, a resolve keeps lists and forest |
| RegistryLaws.CacheIsTransparent | bibites-mod/src/SpeciesRegistry.cs:205-281 | for a name in normal form the answer and the registry are the same with and without the cache |
| RegistryLaws.BurstIsScanned | bibites-mod/src/SpeciesRegistry.cs:66-78 | a burst of arrivals under such names in one tick, with the creates of those that never stood up rolled back in between, is answered and leaves the registry as if every one were scanned |
| RegistryLaws.VisitKeeps | bibites-mod/src/SpeciesRegistry.cs:189-418 | resolve, and roll back if the organism never stood up: registry and cache stay right |
| RegistryLaws.CacheIsScannedIff | bibites-mod/src/SpeciesRegistry.cs:211-226 | the cache can be trusted for a name in every world exactly when the name is in normal form |
| RegistryLaws.RollbackClearsCacheIff | bibites-mod/src/SpeciesRegistry.cs:395-407 | a rollback empties the cache slot of its create exactly when the name was in normal form; otherwise the slot keeps the removed species |
| RegistryLaws.CreateIsFound | bibites-mod/src/SpeciesRegistry.cs:544-601 | a created species is what its name finds |
| RegistryLaws.CreateFinds | bibites-mod/src/SpeciesRegistry.cs:450-493 | and is invisible to every other name |
| Crossings.CrossingStats.Observe | bibites-mod/src/CrossingStats.cs:110-194 | strip entries and crossings count transitions per edge, first sight included; all counters stay in step |
| Crossings.CrossingStats.SeenMeans | bibites-mod/src/CrossingStats.cs:119-165 | which bands, lines and quarters an organism at a position is counted in, by coordinates |
| Crossings.CrossingStats.Forget | bibites-mod/src/CrossingStats.cs:197-204 | the organism leaves every live count |
| Crossings.CrossingStats.Release | bibites-mod/src/CrossingStats.cs:297-311 | the live counts become the recount without the organism |
| Crossings.CrossingStats.NoteArrival | bibites-mod/src/CrossingStats.cs:211-224 | one in the window, the total and one histogram bucket |
| Crossings.BucketMeans | bibites-mod/src/CrossingStats.cs:222 | eight equal buckets along the edge, the last with its end |
| Crossings.CrossingStats.Tick | bibites-mod/src/CrossingStats.cs:227-279 | an open window stays; a closed one adds one line with the window's counts for every declared edge in order, then one with the quarter and arrival counts for every border edge, and is reset |
| Crossings.CrossingStats.Prune | bibites-mod/src/CrossingStats.cs:313-337 | exactly the stale observations go, and only from 64 on |
| Crossings.CrossingStats.Reset | bibites-mod/src/CrossingStats.cs:80-103 | every counter zero, every invariant established |
| Crossings.RecountUpdate | bibites-mod/src/CrossingStats.cs:167-193 | a new observation moves the recount by what changed for this organism |
| Crossings.RecountRemove | bibites-mod/src/CrossingStats.cs:297-311 | a removed observation takes its bits with it |
| Crossings.GuardNeverMatters | bibites-mod/src/CrossingStats.cs:304-308 | the positive-count guard never decides |
| HistoryGuard.RepairBalances | bibites-mod/src/SpeciesHistoryGuard.cs:290-381 | after a repair the budget minus what the save loop writes is the unreached push counters plus the surplus entries less what the counters could not hold, for all inputs |
| HistoryGuard.RepairMakesRoom | bibites-mod/src/SpeciesHistoryGuard.cs:349-381 | a repaired history can be saved exactly when the push counters and entries past the end cover what the counters could not hold; it can if every window fits, and the balance is exact exactly then |
| HistoryGuard.RepairIsIdempotent | bibites-mod/src/SpeciesHistoryGuard.cs:290-322 | a second repair changes nothing |
| HistoryGuard.WidthIsCount | bibites-mod/src/SpeciesHistoryGuard.cs:328-347 | a width is the number of points of the scale inside the live window |
| HistoryGuard.ScalesMean | bibites-mod/src/SpeciesHistoryGuard.cs:349-364 | the scales whose points and pushes are written |
| HistoryGuard.WithoutRoom | bibites-mod/src/SpeciesHistoryGuard.cs:295-309 | witnesses: the wrapped counter overruns without a repair and not with one, and a window past 65535 overruns even with one |
| HistoryGuard.Repair | bibites-mod/src/SpeciesHistoryGuard.cs:290-322 | only the counters change, to the clamped window widths; the result counts the changed entries |
| HistoryGuard.RepairAll | bibites-mod/src/SpeciesHistoryGuard.cs:219-270 | every recorded history is repaired, and the result counts the histories that needed it |
| HistoryGuard.PointsTheSaveLoopWrites | bibites-mod/src/SpeciesHistoryGuard.cs:349-364 | the widths and pushes up to the apparition scale, the last scale without pushes |
| HistoryGuard.NPointsToSave | bibites-mod/src/SpeciesHistoryGuard.cs:367-381 | the sum of both counter arrays |
| Links.DetachDeparting | bibites-mod/src/OrganismLinks.cs:51-122 | after capture and detach each other organism's list is the original without dead entries and the id, in order, no parent field points at the departing object, and everything else is unchanged |
| Links.OrganismLinks.ScanWorld | bibites-mod/src/OrganismLinks.cs:87-122 | recorded are exactly the holders and dependants among the other organisms and the eggs |
| Links.OrganismLinks.RecordChildSlots | bibites-mod/src/OrganismLinks.cs:138-166 | every live entry that names the organism gets a slot with its index, and a list without one that only the recorded child ids name gets one slot without an index; no other slot is added |
| Links.OrganismLinks.RecordDependant | bibites-mod/src/OrganismLinks.cs:168-188 | a parent slot is recorded exactly when it points at the object, or has none and names the id |
| Links.OrganismLinks.Detach | bibites-mod/src/OrganismLinks.cs:231-274 | recorded lists filtered, recorded parent fields cleared, all others untouched |
| Links.OrganismLinks.FilterInPlace | bibites-mod/src/OrganismLinks.cs:241-250 | the backwards removal loop is the filter |
| Links.FilteredIsClean | bibites-mod/src/OrganismLinks.cs:241-250 | a filtered list names neither the id nor a dead entry, and filtering twice is filtering once |
| Links.FilteredInOrder | bibites-mod/src/OrganismLinks.cs:241-250 | an entry that is kept stands where the number of kept entries before it puts it |
| Links.RestoreHolders | bibites-mod/src/OrganismLinks.cs:362-400 | after an arrival every recorded parent with a list lists the newcomer, in every gap a record named and at most once more, at the end; every other living child keeps its place, no other list changes |
| Links.RestoreSlot | bibites-mod/src/OrganismLinks.cs:372-390 | the named entry if it is still dead or stale, else the end unless already listed |
| JsonDiffs.Compare | bibites-mod/src/JsonDiff.cs:13-18 | the first k differences, all of them if there are no more; for k >= 1 empty exactly when the trees are the same |
| JsonDiffs.Walk | bibites-mod/src/JsonDiff.cs:20-108 | the capped walk appends as much of the uncapped difference as fits |
| JsonDiffs.WalkFields | bibites-mod/src/JsonDiff.cs:54-83 | property names of both objects, in order, each once |
| JsonDiffs.WalkItems | bibites-mod/src/JsonDiff.cs:85-102 | the length difference, then the shared items |
| JsonDiffs.CappedTwice | bibites-mod/src/JsonDiff.cs:22-25 | capping after each part is capping the whole |
| JsonDiffs.EmptyIffSame | bibites-mod/src/JsonDiff.cs:20-108 | the uncapped difference is empty exactly when the trees are the same |
| JsonDiffs.DifferenceMeans | bibites-mod/src/JsonDiff.cs:20-108 | the difference is exactly the list of the places where the two trees differ, each with what differs there, in walking order and none twice |
| JsonDiffs.ObjectsAreMaps | bibites-mod/src/JsonDiff.cs:54-83 | two objects are the same exactly when they agree on every name: property order does not matter |
| ParentBlobs.LineageCollector.DropForSize | bibites-mod/src/LineageCollector.cs:288-326 | terminates; exactly the emptied blobs are flagged; migrant and kept blobs fit whenever the migrant alone does; no fitting choice keeps more blobs |
| ParentBlobs.LineageCollector.Consider | bibites-mod/src/LineageCollector.cs:191-229 | at most two ids, never 0, never the migrant, none twice; the live id wins over the recorded one |
| ParentBlobs.LargestFirstKeepsMost | bibites-mod/src/LineageCollector.cs:288-326 | dropping largest first drops the fewest, for any number of parents |
| ParentBlobs.SmallestAreLightest | bibites-mod/src/LineageCollector.cs:298-324 | no set of as many blobs is lighter than a set of smallest ones |
| ParentBlobs.LineageCollector.Largest | bibites-mod/src/LineageCollector.cs:298-311 | an entry with a largest blob, or none |
| Saves.WorldSaver.Save | bibites-mod/src/WorldSaver.cs:298-346 | whatever fails and wherever a crash falls, every directory state passed through keeps a readable archive at least as new as the last completed save; on success the live file is this save and the old rotations are pruned by the outcome of each deletion; on failure the previous live file is in place exactly when its rename did not take effect |
| Saves.FailedSaveKeepsLiveIff | bibites-mod/src/WorldSaver.cs:298-346 | for every outcome of the write, the renames and the clean-up: a failed save leaves a previous live file other than the archive it was writing in place exactly when the first rename did not take effect, and otherwise it is under the backup name |
| Saves.SaveMayLoseLive | bibites-mod/src/WorldSaver.cs:470-499 | the failing input: first rename done, second not, and the directory has no live file |
| Saves.WorldSaver.Produce | bibites-mod/src/WorldSaver.cs:298-346 | the directory after write, verification, renames and clean-up, for every outcome of each |
| Saves.WorldSaver.Rotate | bibites-mod/src/WorldSaver.cs:470-499 | the directory after the two renames as a function of their outcomes, the guarantee kept in between |
| Saves.WorldSaver.Prune | bibites-mod/src/WorldSaver.cs:502-541 | for any outcome of each deletion: of all but the newest Keep selected files exactly those are gone whose deletion took effect, the result counts the deletions done, and no other file changes |
| Saves.NewestAreLeft | bibites-mod/src/WorldSaver.cs:519-532 | when every deletion takes effect exactly the newest Keep selected files are left |
| Saves.ProducedIff | bibites-mod/src/WorldSaver.cs:298-346 | a save succeeds exactly when the archive is written and verified and both renames take effect |
| Saves.ProducedMeans | bibites-mod/src/WorldSaver.cs:298-346 | what then holds under each of the three names, and that no other file changes |
| Saves.WorldSaver.CleanUpPartial | bibites-mod/src/WorldSaver.cs:562-575 | only the partial can go |
| Saves.LiveMayRotate | bibites-mod/src/WorldSaver.cs:476-490 | between the renames the guarantee holds with no live file at all |
| Saves.VerifiedMayGoLive | bibites-mod/src/WorldSaver.cs:492 | a verified newer archive may become the live file |
| Saves.PruneOrderIsAge | bibites-mod/src/WorldSaver.cs:519-529 | names in ordinal order are saves in time order |
| Saves.PruneIsOwnIff | bibites-mod/src/WorldSaver.cs:504-513 | everything selected is this world's own exactly when no file is a rotation of a world whose name goes on with a dash |
| SaveNames.StampOrderIsAge | bibites-mod/src/WorldSaver.cs:478 | two fixed-width stamps compare ordinally as their moments do |
| SaveNames.SelectedIff | bibites-mod/src/WorldSaver.cs:504-513 | the prune pattern selects this world's rotations and those of worlds named with this name, a dash and more |
| SaveNames.PruneSeesLongerWorlds | bibites-mod/src/WorldSaver.cs:504-513 | a rotation of Alpha-Beta is selected when Alpha is pruned |
| SaveNames.RotationOrder | bibites-mod/src/WorldSaver.cs:519-520 | among one world's rotations the order of names is the order of stamps |
| SaveNames.PaddedOrder | bibites-mod/src/WorldSaver.cs:478 | zero-padded numbers compare as numbers |
| Transport.SessionKeeps | bibites-mod/src/WebSocketTransport.cs:213-235 | from any sound session state every interleaving of Send with the send loop keeps the wakeup property, first-in first-out order and at most 256 queued frames |
| Transport.SendMeans | bibites-mod/src/WebSocketTransport.cs:213-235 | an empty frame or one that finds 256 queued is dropped, any other joins the end of the queue and wakes the loop once |
| Transport.SendableInOrder | bibites-mod/src/WebSocketTransport.cs:484-494 | what is sent is the accepted list without the frames over 8 MiB, in order |
| Transport.NothingIsStranded | bibites-mod/src/WebSocketTransport.cs:479-496 | when no step but a new Send or a close can be taken, the queue is empty and the wire carries every sendable frame accepted, in order |
| Transport.StepKeepsOrder | bibites-mod/src/WebSocketTransport.cs:484-494 | frames leave in the order they came, without those over the frame limit |
| Transport.QueueStaysBounded | bibites-mod/src/WebSocketTransport.cs:213-235 | at most 256 queued frames through any closes and reconnects |
| Transport.DrainEndsAwakeIff | bibites-mod/src/WebSocketTransport.cs:528-547 | after every whole drain, whatever was queued, a wakeup is due exactly when nothing was enqueued between its two halves or the last such release is still to come |
| Transport.DrainEndsFreshIff | bibites-mod/src/WebSocketTransport.cs:528-547 | it leaves nothing behind exactly when nothing was enqueued between its two halves |
| Transport.DrainEndsSoundIff | bibites-mod/src/WebSocketTransport.cs:528-547 | and all the session needs holds exactly when the wakeup is due |
| Transport.ConnectionKeeps | bibites-mod/src/WebSocketTransport.cs:313-496 | a whole connection, drain and session: in that case no accepted frame is stranded and the wire is in order |
| Transport.DrainStrands | bibites-mod/src/WebSocketTransport.cs:528-547 | in the other case the frames stay queued and the wire empty until something further is enqueued or the connection closes |
| Transport.DrainRace | bibites-mod/src/WebSocketTransport.cs:528-547 | the failing input: a Send between the two halves of the drain |
| Transport.LadderClimbs | bibites-mod/src/WebSocketTransport.cs:685-700 | the backoff ceiling never falls between attempts and tops out at rung 6 |
| Transport.LadderDoubles | bibites-mod/src/WebSocketTransport.cs:685-700 | the ladder starts at one second and doubles up to thirty |
| Transport.FullJitterDelayMs | bibites-mod/src/WebSocketTransport.cs:685-706 | the delay is a draw up to min(max, min * 2^(attempt-1)), pinned to the maximum after five refusals; the exponent clamp never matters |

## Left out

- The Go relay, sidecar, archive and launcher: the sidecar appears as assumptions only.
- The socket itself, its close handshakes, TLS, authentication and the receive loop; of the transport only the queue, the semaphore, the drain and the backoff arithmetic.
- Unity objects, Harmony patches, logging and timing; a body is an id, an enabled, a simulated and a destroyed flag, reached through a handle.
- JSON text, payload contents, hashes: payloads are opaque strings, trees are abstract, and `JsonDiffs` reports structured paths instead of rendered text.
- Float rounding: geometry, positions and times are reals.
- Culture and Unicode: case folding in `ContractA.Fold`, `Upper` and `Lower` is ASCII; migration ids are uuids and edges are letters.
- Dev commands, dev edge overrides, the forced-export exemption's log line, the heartbeat and the census.
- An unload or rollback inside one `CustodySystem` run, and several sessions per world there, because the ledger is forgotten by design.
- The effects of a restore on species and links happen inside `Migration.MigrationImporter.Restore` in the source; here the registry and the links are separate modules.
- `RestoreOwnParents`, `RestoreOwnChildren` and `RestoreDependants` of the relink after an arrival: plain assignments.
- The UI span update of the species registry.
- The per-tick blob cache of the lineage collector.
- The save lock across processes: breaking a stale lock is best effort, so mutual exclusion is not claimed; nor are the save timer and its deferrals.
- DrainTransport's metering of frames per update: it only delays the queue that `Clients` models from its arrival on.
- Registry.SpeciesRegistry.Resolve: does not model a missing game registry or an exception inside it, which both fall back to no species.
- Migration.MigrationImporter.Handle: does not model an exception escaping a handler, in which case the delivery stays unanswered.
- Clients.MultiverseClient.ApplyMutations: does not say how long a batch takes, only that it stops after one to four entries.
- Transport.FullJitterDelayMs: starts at attempt 1, as its callers do.
- Migration.GameBridge.Destroy: models the engine's deferred destruction as immediate; what the mod reads in between, the engine's null test, already comes out true.
- Registry.SpeciesRegistry.AdoptTemplate: does not model the template and generation a created species takes over, only that one the organism did not bind is taken out.
- HistoryGuard.RepairAll: requires that no two histories share a counter array, as in the game.
