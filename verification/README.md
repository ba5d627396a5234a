# Verification of the authority store

A Dafny model of `internal/authoritystore`, the event-sourced single-writer command
authority. Every public operation of the store runs under one lock in one transaction, so
each is modelled as one atomic step on tables (maps and sequences). The recurring question is
whether what the incremental writer commits is what the independent checks and folds
recompute from the log, in the state of the commit and in every state after it.

| module | models |
|---|---|
| `BatchSweep` | the anonymous batch sweep, decided at a log position and re-evaluated there on reopen |
| `Claims`, `ClaimRuns`, `Barrier` | claims, journal generations, barrier digest, release |
| `Submissions` | submission, replay, execution handles, sequence heads, receipts |
| `GateRepair`, `Gates`, `Projection` | gate declaration, sealing, exemption repair, and the fold they read |
| `Dependency` | dependency admission, its graph search, the fold and the rebuilt projection |
| `StepOrder`, `StepFold` | sort keys, midpoint inserts and renumbering under the unique index, and the fold that recomputes them |
| `NamedBatch` | membership tables, the two log folds and the receipt-order check |
| `Blobs` | chunk staging, durable files, collection and quota, with crashes |
| `Lifecycle`, `MatterFinish` | start cascades, finishing a Matter, and the checks that recompute them |
| `ArtifactKeys` | key rotation, fences and artifact chains |
| `Prefix` | the event hash chain, anchors and deltas |
| `Paging` | the keyset and the offset cursor |
| `Urn`, `Ulid` | the URN recogniser and the two ULID encoders |
| `Common`, `Nodes`, `Order` | shared values, the node table, the order of strings |

`dafny verify dfyconfig.toml` checks the whole project.

Operations that change tables in place are methods of classes whose `ensures` tie the new
tables to a function or a step relation on the old ones; the theorems are about those
functions and relations, over all inputs, all reachable states or all runs.

Some properties do not hold of the code as it stands. Each has a lemma that exhibits the
failure and one that says exactly when the code does meet the property:

- Renumbering Steps can hit the unique index on live siblings halfway
  (`StepOrder.RenumberingCanClash`); `StepOrder.InsertUniqueFailure` and
  `StepOrder.RenumberedExactly` give the exact condition.
- A Step that `step.create` v1 bears under a finished Matter can make the finish fail its
  reopen check (`MatterFinish.FinishCanBeRefused`), since that command asks only for an open
  birth journal; `MatterFinish.RefusedExactly` says exactly when, and
  `MatterFinish.EveryFinishAccepted` and `MatterFinish.ReleasedIsSafe` what rules it out.
- `step.create` v1 takes its key from the `steps` table, so it can share a live Stage's key
  (`StepOrder.LegacySharesKey`) and leave a log the reopen fold refuses
  (`StepFold.LegacyIsRefused`); `StepFold.LogFoldsExactly` gives the exact condition.
- The loop over membership events forgets an inconsistent join or leave once a later
  membership event passes, since its `break` leaves only the switch
  (`NamedBatch.LoopForgets`); `NamedBatch.DeriveFold` gives exactly the logs it accepts. The
  receipt-order check after it catches all of these but the join of a Matter that does not
  exist (`NamedBatch.MissingMatterPasses`, `NamedBatch.WholeCheckIsStrict`). No run writes
  such a log (`NamedBatch.EveryStateIsGood`).
- The URN grammar is ambiguous about `?=` inside an r-component; the recogniser implements
  one reading (`Urn.ReadingMatters`, `Urn.ValidUrnExactly`).
- A restart forgets which completion a handle had recorded, always
  (`Submissions.RestartForgets`); without a restart the first one wins
  (`Submissions.FirstCompletionWins`).

Logs may hold legacy Repo-scoped Batch births, which end the reading of their Batch;
`NamedBatch.ReadAgrees` shows that nothing else does. Today's writers append none, so every
Batch of every run reads as its tables (`NamedBatch.EveryPrefixReads`).

## Model

| member | source | states |
|---|---|---|
| `BatchSweep.EveryTerminalValidates` | internal/authoritystore/batch_sweep_validate.go:14-94 | In every run of enrolments, submissions, sweeps and terminal transactions, each with any number of events and of node, claim, close and birth-journal rows, at every state, every sweep terminal ever committed (swept, already swept or refused) is accepted by the reopen check, and no Batch has two swept events from this path |
| `BatchSweep.EvaluateStable` | internal/authoritystore/batch_sweep.go:188-267 | The outcome evaluated at position p is the same in every later store: births, tombstones, claims, closes, releases, receipts and events after p never change it |
| `BatchSweep.EvidenceStable` | internal/authoritystore/batch_sweep.go:343-469 | The close evidence a sweep names, with the installed anchor, the release event and the dispatch it closes, holds at p now if and only if it holds at p in any later store, for explicit claims and for birth journals |
| `BatchSweep.AnyActiveStable` | internal/authoritystore/batch_sweep.go:232-243 | Whether a Matter has an active explicit or birth claim at p is the same in every later store |
| `BatchSweep.SweepValidates` | internal/authoritystore/batch_sweep.go:108-186 | A sweep terminal passes its own check in the state its transaction commits |
| `BatchSweep.ValidationStable` | internal/authoritystore/batch_sweep_validate.go:14-94 | A sweep terminal that passes the check passes it after any later transaction: boundary anchor, no future effects, same outcome, exactly its own events |
| `BatchSweep.StepExtends` | internal/authoritystore/batch_sweep.go:108-186 | Every transaction, whatever rows it writes, only adds facts that lie after the current position and keeps the table invariants the stability argument rests on |
| `BatchSweep.EffectsGrow` | internal/authoritystore/commands.go:812-843 | However many rows one transaction writes, each at an event of its own range, together they grow the tables after the position the transaction started from |
| `BatchSweep.MatterCreateFits` | internal/authoritystore/commands.go:812-993 | A matter.create, which writes the node row and its birth journal under one command, is a transaction of these runs |
| `BatchSweep.StepReplaceFits` | internal/authoritystore/step12_commands.go:359-363 | A step.replace, which buries a Step and bears its successor at one event, is a transaction of these runs |
| `BatchSweep.SweepKeepsSweptOnce` | internal/authoritystore/batch_sweep.go:259-267 | A sweep event is the first swept event of its Batch |
| `BatchSweep.OpenBrackets` | internal/authoritystore/batch_sweep.go:297-341 | The bracket loop reports an open run, dispatch or role exactly when the fold of the prefix has one |
| `BatchSweep.OutcomeExactly` | internal/authoritystore/batch_sweep.go:188-267 | Every answer has an exact condition on the tables and the positions of the events: swept or already swept if and only if the Matter is live, the Batch's last creation names it and it is not dismissed, the release evidence holds, the last transition is its finish, it is sealed, no claim row or birth journal is held at p, the actor is no role and no bracket is open; each refusal code likewise |
| `BatchSweep.BracketsExactly` | internal/authoritystore/batch_sweep.go:297-341 | A bracket is open if and only if a related run, dispatch or role was opened at some position and no closing event of it follows |
| `BatchSweep.EvidenceExactly` | internal/authoritystore/batch_sweep.go:343-469 | The evidence holds if and only if an earlier command of the same Environment and epoch, named by hash and digest, released the Matter's claim by p with exactly its own events, under an anchor of the log from there to p |
| `BatchSweep.AnswerExactly` | internal/authoritystore/batch_sweep.go:63-107 | A sweep is decided if and only if it is new, of the current epoch, from a member Repo and next in its Environment; a known one gets its receipt if and only if it is the same terminal command |
| `BatchSweep.ResultAt` | internal/authoritystore/batch_sweep.go:188-267 | The read-only evaluation returns the specified outcome, and so meets the exact condition of each answer |
| `BatchSweep.SweepStore.Sweep` | internal/authoritystore/batch_sweep.go:63-186 | A known id replays its receipt or conflicts; otherwise the guards decide, and the transaction writes the submission, boundary, receipt, head and at most one event for an outcome that meets its exact condition, or nothing at all |
| `ClaimRuns.RunKeepsInv` | internal/authoritystore/claims.go:877-927 | Every interleaving of acquire, append, acknowledge, seal, release, repair and stand-down keeps the claim and journal invariant in every state |
| `Claims.OneOpenClaim` | internal/authoritystore/claims.go:877-887 | A Matter never has two open explicit claims |
| `Claims.EpochsContiguous` | internal/authoritystore/claims.go:877-927 | The claim epochs of a Matter are exactly 1..k, once each, and an open claim has the largest |
| `Claims.GenerationsContiguous` | internal/authoritystore/claims.go:1445-1466 | The journal generations of a claim are exactly 1..g, once each, and all but g are quarantined |
| `Claims.CommandsDistinct` | internal/authoritystore/claims.go:626-668 | No command id appears in two journal entries |
| `Claims.OneCurrentJournal` | internal/authoritystore/claims.go:1327-1379 | A claim has at most one journal that is not quarantined |
| `Claims.AcquireKeepsInv` | internal/authoritystore/claims.go:877-927 | Acquire assigns the next epoch, opens generation 1 and keeps the invariant |
| `Claims.AppendKeepsInv` | internal/authoritystore/claims.go:626-668 | Appending keeps entry sequences strictly increasing and only the last entry non-terminal |
| `Claims.AckKeepsInv` | internal/authoritystore/claims.go:672-723 | Acknowledging the last entry keeps the invariant, whether or not the claim is closed |
| `Claims.OwnedAckKeepsInv` | internal/authoritystore/claim_journal_close.go:56-137 | Owned acknowledgement keeps the invariant |
| `Claims.OwnedSealKeepsInv` | internal/authoritystore/claim_journal_close.go:140-190 | Owned sealing keeps the invariant |
| `Claims.ReleaseKeepsInv` | internal/authoritystore/claims.go:1294-1326 | Release closes the claim and keeps the invariant |
| `Claims.RepairKeepsInv` | internal/authoritystore/claims.go:1445-1466 | Repair quarantines the current generation, opens the next and keeps the invariant |
| `Claims.StandDownKeepsInv` | internal/authoritystore/claims.go:1467-1496 | Stand-down closes the claim and keeps the invariant |
| `ClaimRuns.StepFreezes` | internal/authoritystore/claims.go:727-758 | No step changes a journal that is sealed or quarantined |
| `ClaimRuns.FrozenForever` | internal/authoritystore/claims.go:727-758 | In every run a journal once sealed or quarantined never changes again |
| `ClaimRuns.SealDecidesRelease` | internal/authoritystore/claims.go:1294-1326 | A release that succeeds after an owned seal of its claim names the sealed journal and carries exactly the digest and count the seal returned |
| `ClaimRuns.ReleaseMeansAllSucceeded` | internal/authoritystore/claims.go:1294-1326 | A release that succeeds names the one current journal, which is sealed with every entry succeeded, and leaves the journals alone |
| `ClaimRuns.RepairExactly` | internal/authoritystore/claims.go:1327-1379 | A repair is accepted if and only if the claim's owner names its open journal, a fresh successor, the unfinished last entry and a right reason to give it up; it lacks only its proof exactly when the proof is wrong |
| `ClaimRuns.QuarantineLosesNothing` | internal/authoritystore/claims.go:1355-1379 | In every run each quarantined journal was quarantined by a repair at which every command of it that had succeeded was already acknowledged |
| `ClaimRuns.EveryEntryIsTrue` | internal/authoritystore/claims.go:626-723 | In every run every journal entry is a command of its claim's owner, in its worktree and Repo and under its epochs, and every acknowledged one carries the retained receipt under an anchor that covers it |
| `ClaimRuns.AcquireExactly` | internal/authoritystore/claims.go:867-927 | A claim is granted if and only if the Matter is in the Repo and held by nobody, and dispatch and ids are new |
| `ClaimRuns.AppendExactly` | internal/authoritystore/claims.go:626-668 | An entry is appended if and only if the open claim's owner sends the next command of an open journal with nothing outstanding |
| `ClaimRuns.OwnedAckExactly` | internal/authoritystore/claim_journal_close.go:56-137 | In a reachable state the holder acknowledges exactly the retained receipt under a covering anchor, and again only under one no shorter |
| `ClaimRuns.OwnedSealExactly` | internal/authoritystore/claim_journal_close.go:140-190 | A seal is given if and only if the holder names its own current journal, nothing is unresolved and every entry is barred |
| `ClaimRuns.ReleaseExactly` | internal/authoritystore/claims.go:1261-1326 | A release closes the claim if and only if its owner presents the count and digest of the sealed journal with nothing unresolved |
| `ClaimRuns.StandDownExactly` | internal/authoritystore/claims.go:1261-1293 | A stand-down closes the claim if and only if it comes from outside, with a reason, the loss accepted and an unused owner nonce |
| `ClaimRuns.SameDigestSameJournal` | internal/authoritystore/claims.go:1148-1214 | Two sealed journals with the same barrier digest are one journal, or empty |
| `Barrier.BarrierDigest` | internal/authoritystore/claims.go:1148-1214 | The digest loop returns the chained root over all components and their count, and fails exactly when some entry cannot be barred |
| `Barrier.EncodingInjective` | internal/authoritystore/claims.go:1148-1214 | The hashed bytes of a barrier component determine the component, and its position as far as 64 bits hold it |
| `Barrier.DigestDeterminesEntries` | internal/authoritystore/claims.go:1148-1214 | With a hash that is collision-free on bytes the barrier digest determines the whole entry list, through the byte encoding |
| `ClaimRuns.ClaimStore.CompleteAcquire` | internal/authoritystore/claims.go:877-927 | The acquire transaction in place is the specified step |
| `ClaimRuns.ClaimStore.AppendEntry` | internal/authoritystore/claims.go:626-668 | The append transaction in place is the specified step |
| `ClaimRuns.ClaimStore.AcknowledgeOwned` | internal/authoritystore/claim_journal_close.go:56-137 | The owned acknowledgement in place is the specified step |
| `ClaimRuns.ClaimStore.SealOwned` | internal/authoritystore/claim_journal_close.go:140-190 | The owned seal in place is the specified step |
| `ClaimRuns.ClaimStore.Release` | internal/authoritystore/claims.go:1294-1326 | The release in place is the specified step |
| `ClaimRuns.ClaimStore.RepairJournal` | internal/authoritystore/claims.go:1445-1466 | The repair in place is the specified step |
| `Submissions.RunKeepsInv` | internal/authoritystore/commands.go:189-271 | Every run of enrol, submit, recover, claim, release, complete, atomic terminal and restart keeps the submission invariant |
| `Submissions.SequencesExact` | internal/authoritystore/commands.go:1139-1166 | The terminal commands of an Environment carry exactly the sequences 1..head, one each |
| `Submissions.PendingWaitsAtHead` | internal/authoritystore/commands.go:189-271 | A pending command of an Environment stands right after its head, so there is at most one |
| `Submissions.ReceiptForever` | internal/authoritystore/commands.go:1139-1166 | A receipt once written never changes in any run |
| `Submissions.ReplayIsExact` | internal/authoritystore/commands.go:189-271 | In every run, once a command is submitted no later submit of its id makes a second row or owner; an exact replay answers Pending or the one receipt, and other bytes conflict |
| `Submissions.TerminalIsCurrent` | internal/authoritystore/commands.go:596-604 | Whatever makes a command terminal or writes its receipt is of the current epoch and moves its Environment's head to it |
| `Submissions.FencedForever` | internal/authoritystore/commands.go:596-604 | In every run a command still pending when its epoch ends never becomes terminal; its row and its Environment's head stay as they are |
| `Submissions.FreshIsCurrent` | internal/authoritystore/commands.go:189-271 | A row appears only for an authenticated command of the current epoch, from a member Repo, next in its Environment |
| `Submissions.SubmitExactly` | internal/authoritystore/commands.go:189-271 | A submission is accepted if and only if it is new, authenticated, admitted, of the current epoch and next in an Environment with nothing pending |
| `Submissions.CompleteExactly` | internal/authoritystore/commands.go:558-604 | A completion is committed if and only if it is for the pending command itself, by its handle, with no other recorded, in the command's own epoch |
| `Submissions.HandlesExactly` | internal/authoritystore/commands.go:332-380 | A handle is recovered exactly for an unowned pending command by its bytes, and a recorded completion claimed exactly while it is not running |
| `Submissions.FirstCompletionWins` | internal/authoritystore/commands.go:558-604 | While no restart intervenes only the first completion a handle recorded can ever be committed |
| `Submissions.RestartForgets` | internal/authoritystore/commands.go:332-380 | In any run, a restart after a completion was recorded lets the recovered command commit any other completion |
| `Submissions.SubmissionStore.SubmitIdentity` | internal/authoritystore/commands.go:189-271 | The submission transaction in place is the specified step with the specified reply |
| `Submissions.SubmissionStore.CompleteCommand` | internal/authoritystore/commands.go:558-604 | Completion in place is the specified step with the specified reply |
| `GateRepair.DecisionIsPinned` | internal/authoritystore/gate_exemption_repair_terminal.go:277-384 | For a target that exists, a repair's decision, refusal code and message at its observed and declaration positions are the same after any later births, tombstones and events |
| `GateRepair.GuardPinnedExactly` | internal/authoritystore/gate_exemption_repair_terminal.go:330-384 | The assessment is unchanged by the later node table if and only if the target already existed, still does not, or was born into another Repo: why completion runs the admission check first |
| `GateRepair.AssessExactly` | internal/authoritystore/gate_exemption_repair_terminal.go:325-384 | The guard passes if and only if the gate is declared at the node's scale without a state and the node is sealed, by the declare path's definition, once that one state is added; leniently also when it is exempt already |
| `GateRepair.DecideExactly` | internal/authoritystore/gate_exemption_repair_terminal.go:110-275 | A repair writes its event if and only if at both positions only its state is missing, and keeps the store if and only if the exemption is there |
| `GateRepair.RefusalsExactly` | internal/authoritystore/gate_exemption_repair_terminal.go:325-384 | Each refusal code has its condition, and a missing prerequisite names the first unmet gate in gate order of the node or an ancestor |
| `GateRepair.TerminalAcceptedForever` | internal/authoritystore/gate_exemption_repair_terminal.go:386-511 | A repair terminal's decision, refusal and event are accepted by the validator's recomputation in every later store |
| `GateRepair.WrittenRepairSeals` | internal/authoritystore/gate_exemption_repair_terminal.go:110-275 | A repair that writes its event leaves the target sealed, by the definition the declare path uses |
| `GateRepair.AssessRepair` | internal/authoritystore/gate_exemption_repair_terminal.go:325-384 | The guards and the ancestor loop return exactly the specified refusal, naming the first open gate in gate order |
| `GateRepair.RepairStore.CompleteRepair` | internal/authoritystore/gate_exemption_repair_terminal.go:110-275 | A retained terminal is returned again and another command under its id refused; otherwise completion succeeds exactly when the boundary is in the log, the target is admitted and the decision is sound, and then retains the specified terminal and at most the repair event |
| `Gates.DeclareSealing` | internal/authoritystore/gate_commands.go:143-180 | Declaring a gate at a scale unseals no node at that scale or above, and a lower node stays sealed if and only if its ancestor at that scale was sealed or it has none |
| `Gates.RunIsMonotone` | internal/authoritystore/gate_commands.go:372-389 | Every reachable set of declarations is monotone in gate order against scale rank |
| `Gates.MonotoneGrows` | internal/authoritystore/gate_commands.go:372-389 | Adding a declaration keeps the set monotone if and only if the conflict test finds nothing |
| `Gates.OrderConflict` | internal/authoritystore/gate_commands.go:372-389 | The conflict loop is true exactly when some declaration of the Repo contradicts the order |
| `Gates.SealedAtScale` | internal/authoritystore/gate_commands.go:424-501 | The exemption loop lists exactly the sealed nodes of the Repo at the scale, each once, in id order |
| `Gates.ListTestIsWalk` | internal/authoritystore/gate_commands.go:424-501 | Testing the collected ancestor list equals walking the ancestor chain |
| `Gates.DeclareAccepted` | internal/authoritystore/gate_commands.go:143-180 | The projection accepts every declaration the writer appends |
| `Gates.DeclareExactly` | internal/authoritystore/gate_commands.go:143-180 | In every state of every run a gate is declared if and only if a person holding the claim declares it for the first time in an order that stays monotone |
| `Gates.DeclaringAgain` | internal/authoritystore/gate_commands.go:143-180 | In every run a gate declared before is answered as declared at the same scale and refused at another, and nothing is written |
| `Gates.GateStore.Declare` | internal/authoritystore/gate_commands.go:143-180 | The declare transaction in place is the specified step |
| `Projection.Derive` | internal/authoritystore/step13_validate.go:213-470 | The projection loop computes the fold of the log, and fails exactly when the fold does |
| `Projection.FoldStable` | internal/authoritystore/step13_validate.go:213-470 | Births and tombstones after a position never change the projection of the log up to it, accepted or not |
| `Projection.IsSealed` | internal/authoritystore/step13_validate.go:633-670 | The ancestor walk decides exactly whether the node is done and it and all ancestors are live with their gates met |
| `Projection.ChainStable` | internal/authoritystore/step13_validate.go:629-670 | A sealing decision at a position is unchanged by everything after it |
| `Projection.RowsStay` | internal/authoritystore/step13_validate.go:667-716 | Gate rows are written once: the rows of any prefix of an accepted log are in its tables unchanged |
| `Projection.LogAcceptedExactly` | internal/authoritystore/step13_validate.go:213-470 | A log is accepted if and only if each event is legal where it stands, judged by the events before it, and then the gate tables hold exactly what the events declared and settled |
| `Projection.LifecycleState` | internal/authoritystore/connected_lifecycle.go:422-456 | The forward pass returns the target state of the node's last transition at its scale |
| `Projection.StateIsPhase` | internal/authoritystore/connected_lifecycle.go:422-456 | On an accepted log the state read straight from the log equals the projected one |
| `Dependency.EveryRunIsSound` | internal/authoritystore/dependency_projection.go:20-94 | In every run, whatever births and tombstones the other commands' transactions write together, at every log position, the edges in force are acyclic with at most one per pair, and the log up to there is accepted by the fold |
| `Dependency.Reachable` | internal/authoritystore/dependency_commands.go:215-231 | The explicit-stack search terminates and is true exactly when a path exists |
| `Dependency.CycleGuardExact` | internal/authoritystore/dependency_commands.go:100-130 | Adding an edge to an acyclic graph keeps it acyclic if and only if the guard finds no path back |
| `Dependency.AcceptedLogIsAcyclic` | internal/authoritystore/dependency_projection.go:20-94 | Any log the fold accepts has an acyclic graph with unique pairs at every position |
| `Dependency.DeriveProjection` | internal/authoritystore/dependency_projection.go:20-94 | The fold loop with its inlined search computes the specified fold and rejects exactly what it rejects |
| `Dependency.FoldStable` | internal/authoritystore/dependency_projection.go:20-94 | Later nodes, tombstones and memberships do not change the fold of a log |
| `Dependency.AdmissionSeesFoldGraph` | internal/authoritystore/dependency_commands.go:170-213 | The graph admission searches is the graph of the fold at the current position |
| `Dependency.AddAccepted` | internal/authoritystore/dependency_commands.go:47-168 | Every add event admission appends is accepted by the independent fold, and the rebuilt projection is the fold's result |
| `Dependency.RemoveAccepted` | internal/authoritystore/dependency_commands.go:47-168 | Every remove event admission appends is accepted by the fold, and the rebuilt projection is the fold's result |
| `Dependency.AddExactly` | internal/authoritystore/dependency_commands.go:47-168 | In every run a dependency is added if and only if both ends stand, the claims are current, the pair is not in force, the graph stays acyclic with it and fresh ids are at hand |
| `Dependency.RemoveExactly` | internal/authoritystore/dependency_commands.go:47-168 | In every run a dependency is removed if and only if both ends stand, the claims are current and the pair is in force |
| `Dependency.RunKeepsInv` | internal/authoritystore/dependency_projection.go:139-191 | In every run the projection table equals the fold of the log |
| `Dependency.StepReplaced` | internal/authoritystore/step12_commands.go:354-363 | step.replace, which buries one Step and bears another at one event, is one operation of these runs |
| `Dependency.DependencyStore.AddDependency` | internal/authoritystore/dependency_commands.go:47-168 | The add transaction in place is the specified step with the specified outcome |
| `Dependency.DependencyStore.RemoveDependency` | internal/authoritystore/dependency_commands.go:47-168 | The remove transaction in place is the specified step with the specified outcome |
| `StepOrder.ApplyRefines` | internal/authoritystore/step12_commands.go:303-400 | Create, create v1, insert, reorder, replace and remove each do to the ordered Steps of their parent exactly what they do to a plain list, leave every other parent's alone, and keep the keys of live siblings of one kind distinct, positive and within int64 |
| `StepOrder.Run` | internal/authoritystore/step12_migration.go:41 | In every run of commands, step.create v1 included, live siblings of one kind have distinct keys, all positive and within int64 |
| `StepOrder.LegacyRefines` | internal/authoritystore/commands.go:871-923 | A Step created by v1 stands where the key from the steps table puts it, with the other Steps in their order |
| `StepOrder.LegacySharesKey` | internal/authoritystore/commands.go:884-896 | A Stage and then step.create v1 leave a live Stage and a live Step with the same key, for every parent and ids |
| `StepOrder.InsertPlaces` | internal/authoritystore/step12_commands.go:685-813 | A committed insert puts the Step exactly at the requested slot, keeps all others' relative order and changes nothing but keys of live Steps under the parent |
| `StepOrder.InsertUniqueFailure` | internal/authoritystore/step12_commands.go:685-813 | The unique index refuses an insert if and only if no key fits the slot, both events are there, the bounds hold and a final key meets the temporary key of a row still waiting |
| `StepOrder.InsertExactly` | internal/authoritystore/step12_commands.go:685-813 | An insert goes through if and only if the anchor is a live Step, the id is new, and a free key fits or all live Steps can be renumbered without a clash and leave a gap in range |
| `StepOrder.RenumberedExactly` | internal/authoritystore/step12_commands.go:540-596 | Renumbering row by row goes through exactly when the bounds hold and nothing clashes, and then the Steps are in the requested order at base + 1000 i |
| `StepOrder.UpdatedExactly` | internal/authoritystore/step12_commands.go:584-596 | A pass of single-row updates under the unique index succeeds if and only if no waiting row holds an earlier row's new key |
| `StepOrder.AmpleMaximum` | internal/authoritystore/step12_commands.go:584-596 | When base + 1000 n is at most the maximum, no update collides |
| `StepOrder.RenumberingCanClash` | internal/authoritystore/step12_commands.go:685-813 | For every choice of ids a run of creates, inserts and removes from the empty table reaches a state in which an insert fails on the unique index |
| `StepOrder.FitKeyFits` | internal/authoritystore/step12_commands.go:504-516 | The next key and the midpoint lie strictly between the neighbours, above 0 and within int64 |
| `StepOrder.GapFits` | internal/authoritystore/step12_commands.go:785-797 | After renumbering the key at base + 1000 position + 500 is free, between its neighbours and within int64 |
| `StepOrder.NamesEveryStep` | internal/authoritystore/step12_commands.go:540-582 | The order test accepts exactly the non-empty lists that name every live Step once |
| `StepOrder.QueryOrder` | internal/authoritystore/step12_commands.go:689-711 | The live Steps of a parent by ascending key, each once |
| `StepOrder.StepTable.InsertStep` | internal/authoritystore/step12_commands.go:685-813 | The insert in place is the specified outcome, with the table rolled back on every error |
| `StepOrder.StepTable.ReorderSteps` | internal/authoritystore/step12_commands.go:303-334 | The reorder in place is the specified outcome, with the table rolled back on every error |
| `StepOrder.StepTable.CreateLegacyStep` | internal/authoritystore/commands.go:884-923 | step.create v1 in place is the specified outcome on both tables, or an error with nothing written |
| `StepFold.LogFoldsExactly` | internal/authoritystore/step12_validate.go:599-735 | After every run the reopen fold of the node events is exactly the table of sort keys the commands left, if every step.create v1 found the largest key of the steps table equal to the largest live one; otherwise the log is refused, then and later |
| `StepFold.CommandFoldsExactly` | internal/authoritystore/step12_validate.go:599-735 | The events of each committed create, insert, reorder, replace and remove fold to the table it committed; those of step.create v1 exactly when it is on key |
| `StepFold.LegacyIsRefused` | internal/authoritystore/step12_validate.go:640-652 | A Stage and then step.create v1 leave a log the fold refuses |
| `StepFold.LegacyAlone` | internal/authoritystore/commands.go:884-896 | Under a Matter whose children all come from step.create v1 every one of them is on key |
| `StepFold.SiblingOrder` | internal/authoritystore/step12_validate.go:848-865 | The insertion sort lists the live Steps by key and then id, each once |
| `StepFold.InsertionOrderValid` | internal/authoritystore/step12_validate.go:867-901 | Taking the new Step out of the order and putting it back at its place decides whether its key put it there |
| `StepFold.FoldLog` | internal/authoritystore/step12_validate.go:508-735 | The fold in place computes the specified fold of the whole log |
| `NamedBatch.EveryStateIsGood` | internal/authoritystore/named_batch_membership.go:225-436 | In every state of every run of commands of one or more events, key changes and other receipts, the membership tables equal the fold of the whole log, named births equal the birth fold, every receipt is in the artifact chains and the receipt history is accepted |
| `NamedBatch.CommitIsAdmitted` | internal/authoritystore/commands.go:1080-1137 | The artifact position a commit's receipt takes, derived from the epoch, generation and chain, lies after every receipt written before it |
| `NamedBatch.ApplyKeepsInv` | internal/authoritystore/named_batch_membership.go:46-192 | Create, join, leave and dismiss move the tables exactly as the folds move |
| `NamedBatch.ReadAgrees` | internal/authoritystore/named_batch_read.go:292-369 | On any log both whole-log folds accept the read fold of every Batch accepts, and it says the same name, birth, dismissal and members if and only if no legacy Repo-scoped birth names the Batch |
| `NamedBatch.ReadIsTables` | internal/authoritystore/named_batch_read.go:292-369 | In every reachable state reading any Batch from the log answers exactly what its tables hold |
| `NamedBatch.EveryPrefixReads` | internal/authoritystore/named_batch_read.go:292-369 | A read of any Batch at any prefix of any run's log answers what the tables held when the log ended there |
| `NamedBatch.DismissalIsFinal` | internal/authoritystore/named_batch_membership.go:98-100 | After a dismissal the Batch's row and all its membership episodes never change again in any run |
| `NamedBatch.WrittenExactly` | internal/authoritystore/named_batch_membership.go:46-192 | In every state of every run a leave is written if and only if the read lists the Matter in an undismissed Batch, and likewise for joins, repeated joins and dismissals |
| `NamedBatch.NextReadShows` | internal/authoritystore/named_batch_membership.go:46-192 | The read after a committed join, leave or dismissal shows exactly that change |
| `NamedBatch.CreatedExactly` | internal/authoritystore/commands.go:818-850 | A named Batch is created if and only if no Batch reads the name and the id reads none |
| `NamedBatch.SortedHistoryAccepted` | internal/authoritystore/named_batch_membership.go:545-604 | However the entries are collected and sorted by artifact position, the receipt-order check accepts every state of every run |
| `NamedBatch.DeriveFold` | internal/authoritystore/named_batch_membership.go:263-361 | The fold loop as written accepts exactly the logs on which no membership event stops it and the last one is consistent, and then returns its maps |
| `NamedBatch.FoldExactly` | internal/authoritystore/named_batch_membership.go:263-361 | The fold that refuses every bad event accepts if and only if nothing stops the loop and every membership event, not just the last, is consistent where it stands |
| `NamedBatch.FoldPassesLoop` | internal/authoritystore/named_batch_membership.go:263-361 | What that fold accepts the loop accepts, with the same maps |
| `NamedBatch.LoopForgets` | internal/authoritystore/named_batch_membership.go:335-361 | On every accepted log and active pair, a second join followed by a leave passes the loop although the fold refuses it |
| `NamedBatch.TogetherExactly` | internal/authoritystore/named_batch_membership.go:225-604 | On every log with one birth per id and no legacy birth, the strict fold accepts if and only if nothing stops the loop, the events replay in log order and the Matters that are joined exist |
| `NamedBatch.WholeCheckIsStrict` | internal/authoritystore/named_batch_membership.go:438-604 | Whatever joins without an event are collected, what the loop and the receipt-order check both accept the strict fold accepts, if and only if the Matters that are joined exist |
| `NamedBatch.MissingMatterPasses` | internal/authoritystore/named_batch_membership.go:338-349 | A join of a Matter that does not exist, followed by a dismissal, passes both checks |
| `NamedBatch.ReadPrefix` | internal/authoritystore/named_batch_read.go:292-369 | The prefix loop computes the specified reading of the first count events |
| `NamedBatch.CheckReceiptHistory` | internal/authoritystore/named_batch_membership.go:545-604 | The check sorts by artifact position and answers whether the sorted history replays |
| `NamedBatch.NamedBatchStore.Complete` | internal/authoritystore/named_batch_membership.go:46-192 | The transaction in place, with its scans and its receipt position written out, is the specified commit, and a failure leaves everything as it was |
| `Blobs.EveryStateIsBacked` | internal/authoritystore/blobs.go:51-232 | In every state of every run, with a crash allowed between any file step and its commit, every chunk row and verified product names a present file with the right bytes, chunks tile exactly [0, offset), and each domain holds at most 128 unreferenced products of 2^40 bytes in all |
| `Blobs.ApplyKeepsSound` | internal/authoritystore/blob_files.go:78-157 | No operation, finished or cut short, takes the bytes from under a committed row of any domain |
| `Blobs.ApplyKeepsQuota` | internal/authoritystore/blobs.go:81-93 | No operation takes a domain past its quota of unreferenced products |
| `Blobs.StageAppendsBytes` | internal/authoritystore/blobs.go:101-168 | A chunk accepted at the head extends the staged bytes by exactly itself |
| `Blobs.RetryIsExact` | internal/authoritystore/blobs.go:134-153 | A retry below the head changes nothing and succeeds exactly when a row starts at its offset and holds its bytes |
| `Blobs.FinishIsExact` | internal/authoritystore/blobs.go:172-232 | A fully staged product is verified if and only if the staged bytes have the declared digest, and its file then holds those bytes |
| `Blobs.StartExactly` | internal/authoritystore/blobs.go:51-97 | A new product is started if and only if its domain stays within its quota with it |
| `Blobs.StageExactly` | internal/authoritystore/blobs.go:101-168 | In a sound store a chunk is taken at the head if and only if it fits the rest of an unverified product |
| `Blobs.PromoteExactly` | internal/authoritystore/blobs.go:237-271 | A product can be referred to if and only if it is verified at that length, and then its bytes are there |
| `Blobs.PinExactly` | internal/authoritystore/snapshots.go:182-233 | A snapshot pins exactly the products its domain refers to at that moment |
| `Blobs.CollectKeepsSound` | internal/authoritystore/blob_files.go:253-310 | Collection stopped at any entry leaves every file some domain still names |
| `Blobs.CollectIsPrecise` | internal/authoritystore/blobs.go:355-382 | After a full collection in any state of any run the directory holds, besides foreign files, exactly the files some row names, and exactly the expired, unreferenced and unpinned products are gone |
| `Blobs.HashChunks` | internal/authoritystore/blob_files.go:120-157 | The chunk loop returns the concatenated bytes exactly when the rows tile the length and every file is right |
| `Blobs.CheckBlobFiles` | internal/authoritystore/blob_files.go:198-251 | The reopen check accepts exactly when every product checks |
| `Blobs.ReopenAccepts` | internal/authoritystore/blob_files.go:198-251 | Every product of a reachable state passes the reopen check |
| `Blobs.BlobStore.Start` | internal/authoritystore/blobs.go:51-97 | Start in place is the specified step with the specified reply |
| `Blobs.BlobStore.Stage` | internal/authoritystore/blobs.go:101-168 | Staging in place is the specified step, file before row |
| `Blobs.BlobStore.Finish` | internal/authoritystore/blobs.go:172-232 | Finishing in place is the specified step, file before row |
| `Blobs.BlobStore.CollectExpired` | internal/authoritystore/blobs.go:355-382 | Collection in place deletes the rows first and then every file no row names |
| `Lifecycle.EveryStateIsSound` | internal/authoritystore/lifecycle_validate.go:21-141 | In every state of every run each committed lifecycle command other than matter.finish (see `MatterFinish`) is accepted by the recomputation at its prior prefix, and no node has left planned under a planned parent |
| `Lifecycle.NoPlannedAncestor` | internal/authoritystore/connected_lifecycle.go:305-349 | In such a state no node that has left planned has a planned ancestor, however far up |
| `Lifecycle.WriterValidates` | internal/authoritystore/connected_lifecycle.go:236-405 | A command the writer commits is accepted at once: same path, same cascade flags, same cause chain |
| `Lifecycle.ValidationStable` | internal/authoritystore/lifecycle_validate.go:21-141 | A command that passes the check passes it after any later events, births and tombstones |
| `Lifecycle.WriterFolds` | internal/authoritystore/connected_lifecycle.go:236-405 | The gate and lifecycle projection accepts every log the writer produces, cascade included |
| `Lifecycle.CommitExactly` | internal/authoritystore/connected_lifecycle.go:236-405 | A command commits if and only if its target stands at its scale in its Repo, unfenced, in a phase its verb leads on from, with enough rising ids; a start needs every ancestor to stand |
| `Lifecycle.CommandGoes` | internal/authoritystore/connected_lifecycle.go:257-349 | A committed command takes its target along the transition of its verb, a start takes every planned ancestor to in progress, and no other phase changes |
| `Lifecycle.ResumeRestores` | internal/authoritystore/connected_lifecycle.go:257-258 | Resume after pause restores the phase of every node |
| `Lifecycle.EveryNodeLives` | internal/authoritystore/connected_lifecycle.go:257-258 | In every run the phases a node passes through are planned, in progress, then paused and in progress in turn, and at the end done or canceled |
| `Lifecycle.FinalForever` | internal/authoritystore/connected_lifecycle.go:236-405 | Done and canceled are absorbing in every run |
| `Lifecycle.PathRisesToTarget` | internal/authoritystore/connected_lifecycle.go:305-349 | Cascade events run root first: scale rank falls strictly along the path |
| `Lifecycle.CollectPlanned` | internal/authoritystore/connected_lifecycle.go:306-332 | The upward walk and the in-place reversal yield exactly the planned ancestors, root first |
| `Lifecycle.CheckRecord` | internal/authoritystore/lifecycle_validate.go:21-141 | The check accepts exactly the records that recompute |
| `Lifecycle.LifecycleStore.CompleteLifecycle` | internal/authoritystore/connected_lifecycle.go:236-405 | The transaction in place is the specified step with the specified outcome |
| `MatterFinish.EveryFinishAccepted` | internal/authoritystore/lifecycle_validate.go:143-222 | In every state of every run in which each step.create v1 finds its Matter not yet done, every matter.finish ever committed is accepted by the reopen check with the sealing it reported, whatever Batch its Matter has by then |
| `MatterFinish.RefusedExactly` | internal/authoritystore/lifecycle_validate.go:143-222 | In every state of every run a committed finish is refused if and only if some step.create v1 under its Matter came after it and its Step is, in id order, before every node that was live and not done at the finish |
| `MatterFinish.LateExactly` | internal/authoritystore/birth_journal.go:56-78 | The nodes born under a Matter after its finish are exactly those of step.create v1, since every other writer asks for a planned or in-progress Matter |
| `MatterFinish.ReleasedIsSafe` | internal/authoritystore/birth_journal.go:56-78 | A finish whose Matter had its birth journal released before is accepted in every later state |
| `MatterFinish.FinishCanBeRefused` | internal/authoritystore/step4_validate.go:1227-1265 | For all ids: create a Matter, start it, finish it and create a Step with v1, and the reopen check refuses the finish |
| `MatterFinish.FinishReports` | internal/authoritystore/connected_lifecycle.go:355-371 | The sealing a committed finish reports is the Matter's sealing in the state it leaves |
| `MatterFinish.SealedByExactly` | internal/authoritystore/step13_validate.go:667-716 | A Matter would be sealed if and only if it is live and every gate its Repo declared for Matters before has a state on it |
| `MatterFinish.AcceptedExactly` | internal/authoritystore/lifecycle_validate.go:143-222 | Whatever follows, a finish stays accepted if and only if no node born under the Matter since comes, in id order, before every node that was live and not done at the finish |
| `MatterFinish.ScanSubtree` | internal/authoritystore/step4_validate.go:1227-1265 | The scan in id order is whole, partial or broken by the first node that is live and not done or was born later |
| `MatterFinish.SealedByStable` | internal/authoritystore/step13_validate.go:667-716 | The sealing recomputed at the finish is unchanged by later births, tombstones and events |
| `MatterFinish.CheckFinish` | internal/authoritystore/lifecycle_validate.go:143-222 | The check accepts exactly the finishes that match the current or the legacy contract over an unbroken scan |
| `MatterFinish.FinishStore.Finish` | internal/authoritystore/connected_lifecycle.go:355-404 | The finish in place is the specified step: the event, the reported sealing and the record |
| `MatterFinish.FinishStore.CreateLegacyStep` | internal/authoritystore/commands.go:871-923 | step.create v1 in place: an open birth journal and no look at the Matter's state, or nothing written |
| `ArtifactKeys.EveryStateIsSound` | internal/authoritystore/artifacts.go:198-314 | Every interleaving of register, fence, append and epoch change keeps keys, chains and fences consistent in every state |
| `ArtifactKeys.GenerationsContiguous` | internal/authoritystore/artifacts.go:232-250 | The key generations of an epoch are exactly 1..g and all below g are fenced |
| `ArtifactKeys.FencedForever` | internal/authoritystore/commands.go:1080-1137 | A fenced generation never gets another artifact and keeps its fence and chain in every run |
| `ArtifactKeys.AppendGrows` | internal/authoritystore/claims.go:1010-1043 | A receipt, alone or followed by its claim grant, leaves every chain sound, loses no row and adds rows to the current generation only |
| `ArtifactKeys.RegisterExactly` | internal/authoritystore/artifacts.go:232-255 | A new key is taken if and only if it is the next generation of the active epoch, in term, with every generation before it fenced |
| `ArtifactKeys.RegisterAgainExactly` | internal/authoritystore/artifacts.go:232-255 | A key taken before is accepted again if and only if it is exactly the one in use |
| `ArtifactKeys.FenceExactly` | internal/authoritystore/artifacts.go:257-314 | A fence is taken if and only if it names the last artifact of an unfenced key of the active epoch, or says there is none |
| `ArtifactKeys.AppendExactly` | internal/authoritystore/commands.go:1080-1137 | A receipt is signed if and only if some key of the active epoch is unfenced and in term |
| `ArtifactKeys.NextMarkIsLast` | internal/authoritystore/commands.go:1080-1137 | The next place in the chains lies after every artifact of every generation and epoch |
| `ArtifactKeys.KeyCheckAccepts` | internal/authoritystore/artifacts.go:355-425 | The key check accepts every row of every reachable state |
| `ArtifactKeys.ChainCheckAccepts` | internal/authoritystore/artifacts.go:459-519 | The chain check accepts every row of every reachable state |
| `ArtifactKeys.CheckArtifactKeys` | internal/authoritystore/artifacts.go:355-425 | The key loop accepts exactly when every row follows the row before it |
| `ArtifactKeys.CheckArtifactChains` | internal/authoritystore/artifacts.go:459-519 | The chain loop accepts exactly when every row continues its chain |
| `ArtifactKeys.CheckFenceHeads` | internal/authoritystore/artifacts.go:512-519 | The fence-head query accepts exactly when every fence names the last artifact of its chain |
| `ArtifactKeys.ReopenIsInv` | internal/authoritystore/artifacts.go:355-519 | The key check, the chain check and the fence-head query accept together exactly the stores that meet the invariant of keys, chains and fences |
| `ArtifactKeys.ArtifactStore.RegisterArtifactKey` | internal/authoritystore/artifacts.go:198-255 | Registration in place is the specified step, with nothing written on an error |
| `ArtifactKeys.ArtifactStore.FenceArtifactKey` | internal/authoritystore/artifacts.go:257-314 | Fencing in place is the specified step: only the exact chain head can be fenced |
| `ArtifactKeys.ArtifactStore.AppendArtifacts` | internal/authoritystore/commands.go:1080-1137 | Appending in place is the specified step, refused on a fenced or expired key |
| `Prefix.AppendKeepsBuilt` | internal/authoritystore/commands.go:1044-1076 | Append succeeds exactly for an id past the last one and keeps positions, ids and digests chained |
| `Prefix.EveryCutVerifies` | internal/authoritystore/batch_sweep.go:471-510 | Every cut of a log built by append satisfies the prefix verifier |
| `Prefix.VerifyPrefix` | internal/authoritystore/batch_sweep.go:471-510 | The verifier accepts exactly a contiguous, id-ordered, correctly chained prefix that ends in the anchor |
| `Prefix.EqualDigestsForceEqualRecords` | internal/authoritystore/snapshots.go:91-110 | With a collision-free hash equal anchor digests on two logs force equal counts and equal records |
| `Prefix.DeltaReachesItsEnd` | internal/authoritystore/snapshots.go:182-233 | Folding a pinned delta from its start anchor yields exactly its end anchor |
| `Paging.FollowingIsComplete` | internal/authoritystore/read_pages.go:157-214 | Following (locator, id) cursors from any point ends and yields every selected row once, in order |
| `Paging.CursorDrops` | internal/authoritystore/read_pages.go:157-203 | Moving the cursor to the k-th selected row drops exactly the first k + 1 |
| `Paging.NoFilterSelectsAll` | internal/authoritystore/read_pages.go:157-203 | Without filter and cursor the pages concatenate to the whole snapshot |
| `Paging.ReadMatterPage` | internal/authoritystore/read_pages.go:66-236 | The page loop returns the first page of the selected rows and a cursor exactly when more remain, or reports the disorder it met |
| `Paging.ReadOffsetPage` | internal/authoritystore/named_batch_read.go:111-274 | The offset page is the slice at the offset, with the next offset exactly when more remain; a size over 1000, a token offset of 0 or an offset past the end is refused |
| `Paging.FollowingOffsetsIsComplete` | internal/authoritystore/named_batch_read.go:174-274 | Following offsets ends and yields every item once, in order |
| `Urn.ValidUrnExactly` | internal/authoritystore/gate_exemption_repair_artifact.go:211-329 | A string is accepted if and only if it derives from section 2 of RFC 8141 (pchar from section 3.3 of RFC 3986) in the reading where the first ?= ends the r-component |
| `Urn.ComponentIsStar` | internal/authoritystore/gate_exemption_repair_artifact.go:300-317 | The component rules accept exactly the repetitions of pchar, slash and, where allowed, question mark |
| `Urn.ValidComponent` | internal/authoritystore/gate_exemption_repair_artifact.go:300-317 | The index loop decides exactly the component rules |
| `Urn.ReadingMatters` | internal/authoritystore/gate_exemption_repair_artifact.go:237-272 | Every URN whose r-component ends in ?= derives from the bare grammar and is refused |
| `Ulid.EncodersAgree` | cmd/wip-authority-lab/main.go:460-475 | The two encoders give the same text for every 16-byte value |
| `Ulid.EncodingIsOrderEmbedding` | internal/authoritystore/dependency_commands.go:255-285 | The encoding is injective and strictly order-preserving |
| `Ulid.EncodingIsUlid` | internal/authoritystore/store.go:81 | Every encoding is 26 Crockford characters of which the first is 0..7 |
| `Ulid.EncodeWithOffset` | internal/authoritystore/dependency_commands.go:255-285 | The bit loop writes the value in 26 base-32 digits |
| `Ulid.EncodeFromThirdBit` | cmd/wip-authority-lab/main.go:460-475 | The nested loops write the value in 26 base-32 digits |

## Left out

- Several authority domains in one store: every state is one domain, except in `Blobs`, whose files are shared.
- SHA-256 is a collision-free constructor, over bytes in the barrier digest and over values elsewhere; signatures, certificates and CBOR encodings are taken as verified values, except the barrier component encoding, which is modelled byte by byte.
- Event ids are the 128-bit values their ULID text stands for; `Ulid` justifies comparing one for the other.
- SQL, locking, cancellation, timeouts and durability of the database file: a transaction commits whole or leaves the state as it was.
- Migrations, backups, schema text, TLS, enrolment, owner attestations, the lab harness and the daemons.
- The claim-fence witness and journal watermark of gate repair, verified-gate evidence and the scheduler hook.
- Lifecycle.EveryStateIsSound: the reason text of a cancellation is not carried.
- Claims: releases of implicit birth claims appear only in `BatchSweep`, where they are evidence.
- BatchSweep.EveryTerminalValidates: other commands are represented by the events and rows they write that a sweep can read, not by their own guards.
- GateRepair.TerminalAcceptedForever: the validator's comparisons of the fence witness and of the stored receipt fields are left out.
- Projection.Derive: trackers, configuration, references and source revisions are left out of the fold.
- StepOrder.RenumberedExactly: the product of a list length and 1000 is unbounded, while the code computes it in int64; lists that long cannot exist. Locators and titles are left out, so the runs include creates that the unique index on locators would refuse.
- NamedBatch.EveryStateIsGood: the comparison of submission and receipt fields inside the fold is left out; refusals for another domain's Batch or Matter are not told apart from missing ones.
- Blobs.EveryStateIsBacked: file names are one constructor per prefix, since the derived names are injective; file modes, symbolic links and directory sync are left out, and so is the active-epoch guard.
- Paging.ReadMatterPage: token signing, scope and expiry are left out; a decoded token is a parameter.
- ArtifactKeys.EveryStateIsSound: the runs allow an epoch to advance at any time, more than the writers do; key sharing with Environment certificates is left out.
- Gates.SealedAtScale: a live node under a tombstoned ancestor is simply not sealed, where the code reports a broken store; only Steps are ever tombstoned, and a Step is nobody's ancestor.
- Dependency.DeriveProjection: the projection is a map where the code returns a sorted slice.
- Ranges over snapshots: `pinSnapshotTx` is modelled by the delta and anchor laws in `Prefix` and by pins in `Blobs`; manifests are left out.
