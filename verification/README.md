# Verified models of the tooling protocols

This project models the harder parts of the repository's Python tooling in Dafny and proves what they are for: protocols
that survive being killed at any step, a concurrent test scheduler that must not lose a test, and exact algorithms with
a clean specification. `dafny verify dfyconfig.toml` checks everything.

## What is modelled

- **Arena evaluation** (`ArenaRecords`, `ArenaEvaluation`, `ArenaSummary`). A batch directory with its write-ahead
  checkpoint, chained checksum and record files. Each lasting step is atomic and a process may be killed before any of
  them; `life` is the number of steps it still has. The summary of a batch is modelled on its own.
- **Parallel tests** (`TestPlan`, `TestScheduler`, `TestLanes`, `TestInterleavings`, `TestVerdict`, `TestSkips`,
  `TestRun`). Packing tests into batches; reconciling what a worker reports; the sections that threads run under the
  lock, as methods of a class and as functions on the shared state; every sequence of events of every thread, with workers
  that write anything and a sink that raises anywhere; the verdict; and all of it together, from the selected tests to
  the verdict.
- **Search** (`TreeEdits`, `ParameterSpec`, `Materialization`, `CampaignRanking`, `SearchTrial`, `SearchCampaign`).
  Parameter edits by path in documents with identity lookup; resumable package building; one trial, which is a preparation
  and a batch with every step of both; and the resumable campaign over its trials. `SearchTrial.TrialOf` defines what a
  trial finds from its prepared packages and the undisturbed batch of `ArenaEvaluation`. A campaign's `findings` are
  tied to it (`SearchTrial.AreFindings`) so that proofs about campaigns need not unfold it.
- **CRC-32C** (`Gf2Division`, `Crc32c`), **route search** (`ExplorationRoute`), **turn scheduler** (`TurnScheduler`).
- **Archives** (`BinaryArchive`), **combat windows** (`CombatWindow`), **chart transfers** (`WireNumbers`, `ChartPages`,
  `ChartStream`), **test selection** (`ScriptDependencies`, `TestSelection`), **compiler audit** (`NoBuildAudit`),
  **measurements** (`PerfLedger`).

Hashes, encodings, the engine, the compiler, the proposer and worker processes are parameters: function fields of an
environment or arbitrary inputs. Collision-free hashes are an explicit hypothesis where a statement needs them.

Methods are proved against specification functions. What such a function is stands in a lemma of its own that does not use
it: where a path leads (`TreeEdits.LocateExactly`), which packages parameters change (`Materialization.BuiltExactly`), what
a mean counts (`ArenaSummary.MeanExactly`), which tests are skipped (`TestScheduler.ReconciledExactly`), where the bytes
of an archive are (`BinaryArchive.EncodedExactly`).

## Where the code does not do what one would expect

- A batch without a declared roster contract accepts and commits results whose rosters differ, and then refuses to
  finish, every time it is resumed (`ArenaEvaluation.UndeclaredRostersMayDiffer`). Agreement of the rosters is exactly
  what finishing takes, beside valid answers, sizes and enough steps (`ArenaEvaluation.FinishedExactly`), and a contract
  ensures it (`ArenaEvaluation.DeclaredRostersAgree`).
- A fail-fast batch whose sink raises while its rows are recorded is handled by recording an error for every test
  without a record, also for those already listed as skipped, so such a test is in both lists. This happens exactly
  then (`TestSkips.BothExactly`); the run fails in any case.
- The zeros that end an archive take more than the 10240 bytes that the size check adds exactly when the members end
  512 bytes before a record does (`BinaryArchive.TailExceedsAllowance`, for an archive that is written
  `BinaryArchive.SomeTailExceeds`). The bound is not a multiple of that record, so nothing exceeds it
  (`BinaryArchive.SizeCheckSuffices`).
- The turn oracle does not end when all secondary steps are blocked and the second actor becomes due
  (`TurnScheduler.NoSchedule`). `TurnScheduler.CanEnd` is the exact condition: `ExpectedActions` ends under it, and there
  is no schedule without it (`TurnScheduler.ScheduleCanEnd`). The one table that the source loads has accepted secondary
  steps.
- A combat window from which every captured record was dropped cannot be collected or verified: a page without records
  is only accepted when nothing was ever captured (`CombatWindow.DroppedIsNeverShown`). All other windows can
  (`CombatWindow.ShownExactly`).

## Model

| member | source | states |
|---|---|---|
| ArenaEvaluation.Directory.Resume | scripts/arena_evaluation.py:359-435 | Rejects exactly the directories that hold no batch and leaves them alone; otherwise the durable results only grow, by engine answers of this process, at most one start is lost, and it stops only when complete, killed early, or for a named condition on results or sizes |
| ArenaEvaluation.Directory.Operate | scripts/arena_evaluation.py:359-435 | Any number of processes killed at any lasting step: none rejects what another left, every completed batch is the full list of durable results with its summary and agreeing rosters, none is killed that may take all steps, and starts are at most the added results plus the lost ones |
| ArenaEvaluation.History | scripts/arena_evaluation.py:359-435 | The same from the first checkpoint on; with a deterministic engine every completed batch is the undisturbed one, and a process with all its steps completes it exactly when there is one |
| ArenaEvaluation.Directory.ReadCheckpoint | scripts/arena_evaluation.py:364-409 | Accepts exactly the states of an interrupted batch and returns the one list of durable results they hold |
| ArenaEvaluation.Directory.ReadCommitted | scripts/arena_evaluation.py:380-387 | Yields the committed results with their chain value and size, or fails only for a directory with no interrupted batch |
| ArenaEvaluation.Directory.LoadComplete | scripts/arena_evaluation.py:341-356 | Accepts exactly a finished batch: valid runs in identity order, its summary, agreeing rosters, and record files that hold just these runs |
| ArenaEvaluation.Directory.ValidateRosters | scripts/arena_evaluation.py:209-218 | Passes exactly when every successful run has the faction and the declared roster or, undeclared, the roster of all others |
| ArenaEvaluation.Directory.EvaluateNext | scripts/arena_evaluation.py:410-420 | One engine start; its result is written ahead or the state stays recoverable, and refusal means that this answer is not valid or that the checkpoint with it is too large |
| ArenaEvaluation.Directory.PublishNext | scripts/arena_evaluation.py:421-431 | Publishing and committing the pending result keeps every intermediate state recoverable with the same results; refusal means that the records or the very checkpoint that commits them are too large |
| ArenaEvaluation.Directory.FinishBatch | scripts/arena_evaluation.py:333-338 | Publishes exactly the logged results as the batch, refusing only for differing rosters or when this batch is too large |
| ArenaEvaluation.Directory.EvaluateAll | scripts/arena_evaluation.py:410-431 | The loop over remaining encounters commits all of them within three or five lasting steps each, unless it breaks off for a named reason at the results it has |
| ArenaEvaluation.ChainInjective | scripts/arena_evaluation.py:268-270 | Without hash collisions, equal chain values mean equal header and equal list of runs |
| ArenaEvaluation.CheckpointUnique | scripts/arena_evaluation.py:380-399 | A directory holds at most one list of durable results |
| ArenaEvaluation.LogPending | scripts/arena_evaluation.py:418-420 | Writing a valid result ahead leaves an interrupted batch with that result added |
| ArenaEvaluation.CreateTemporary | scripts/arena_evaluation.py:58-81 | A leftover .pending file of the next record leaves the state recoverable |
| ArenaEvaluation.PublishRecord | scripts/arena_evaluation.py:421-422 | Renaming the record into place leaves the state recoverable |
| ArenaEvaluation.Commit | scripts/arena_evaluation.py:423-431 | Advancing the checkpoint leaves the state recoverable, with nothing pending |
| ArenaEvaluation.DeterministicResults | scripts/arena_evaluation.py:410-435 | With a deterministic engine the durable results of two histories are prefixes of one another |
| ArenaEvaluation.AnswersAdvance | scripts/arena_evaluation.py:410-431 | With a deterministic engine the durable results are its answers, in identity order, after any number of kills |
| ArenaEvaluation.DeterministicBatch | scripts/arena_evaluation.py:359-435 | A finished batch is the undisturbed one; a process with all its steps finishes exactly when there is one: every answer valid, every artifact that is written within the bound, the rosters agreeing |
| ArenaEvaluation.HistoryGoesOn | scripts/arena_evaluation.py:359-435 | Whatever processes do, the directory holds a history: the engine's answers, each written ahead and committed within the bound |
| ArenaEvaluation.FinishedFits | scripts/arena_evaluation.py:58-63 | A finished batch shows that nothing on the way to it was too large |
| ArenaEvaluation.SameBatch | scripts/arena_evaluation.py:359-435 | Two histories from one directory, each with its own kills, complete equal batches, summary included |
| ArenaEvaluation.FinishedExactly | scripts/arena_evaluation.py:333-435 | With valid answers, enough steps, and the records, checkpoints and batch that are written within the bound, a batch is finished if and only if its rosters agree; else it is refused for them |
| ArenaEvaluation.DeclaredRostersAgree | scripts/arena_evaluation.py:195-218 | With a declared roster contract, records that passed their checks never fail the final roster check |
| ArenaEvaluation.UndeclaredRostersMayDiffer | scripts/arena_evaluation.py:209-218 | Without a contract, an engine that names another actor once has all answers committed, and no process ever finishes: each that may take all its steps refuses for the rosters or a size |
| ArenaRecords.IdentitiesDistinct | scripts/arena_evaluation.py:273-275 | Distinct seeds give distinct encounters, so record files never collide |
| ArenaRecords.IdentityAt | scripts/arena_evaluation.py:273-275 | Seed by seed, forward before mirrored, the baseline before the candidate |
| ArenaRecords.RosterExactly | scripts/arena_evaluation.py:178-192 | Participants give a roster exactly when there are some and all are well-formed with distinct actors, and it lists each actor with its faction |
| ArenaRecords.RecordMeans | scripts/arena_evaluation.py:304-330 | A valid successful record is about its own encounter and has exactly the roster declared for its own arm |
| ArenaSummary.Summarize | scripts/arena_evaluation.py:91-127 | Fails exactly for a duplicate run or unknown termination; otherwise pairs exactly the seeds with four eliminations, counts every termination once, and reports the mean that `MeanExactly` gives |
| ArenaSummary.Collect | scripts/arena_evaluation.py:97-113 | The observations by seed hold exactly the runs' scores and the tallies exactly their terminations, which `MeanExactly` and `CountExactly` tie to the winners |
| ArenaSummary.FourSides | scripts/arena_evaluation.py:116-118 | Four uncensored observations of a seed are exactly its four encounters |
| ArenaSummary.MeanExactly | scripts/arena_evaluation.py:114-127 | The mean is the candidate's wins minus the baseline's, a mutual elimination counting half, over twice the number of seeds whose four encounters ended in elimination; all other seeds are excluded |
| ArenaSummary.WinnerMoves | scripts/arena_evaluation.py:101-106 | Another winner of a candidate run in such a seed moves the mean by a quarter of the points gained over the paired seeds: up for the faction, half as far for a mutual elimination |
| ArenaSummary.CandidateDominates | scripts/arena_evaluation.py:114-127 | The mean is one when the faction wins all candidate encounters of these seeds and no baseline one |
| ArenaSummary.CountExactly | scripts/arena_evaluation.py:107-109 | Each tally is the number of runs of its arm that ended in its way |
| ArenaSummary.MeanBounded | scripts/arena_evaluation.py:119-127 | The mean lies between -1 and 1, and paired plus excluded seeds are all seeds |
| ArenaSummary.SwapNegates | scripts/arena_evaluation.py:114-127 | Exchanging baseline and candidate negates the mean and changes no seed's inclusion |
| ArenaSummary.OrderIrrelevant | scripts/arena_evaluation.py:91-127 | The order of the runs does not matter |
| TestPlan.Plan | scripts/parallel_tests.py:90-127 | The batches of both lanes hold every test exactly once, keep fixture groups whole and flags uniform, and are packed as promised |
| TestPlan.Group | scripts/parallel_tests.py:92-96 | Groups are the tests by fixture key, none lost or repeated |
| TestPlan.MakeUnits | scripts/parallel_tests.py:97-102 | One whole, uniform unit for each group |
| TestPlan.Split | scripts/parallel_tests.py:107-113 | The units that fill a batch by themselves, and the others, each in their order |
| TestPlan.SizedTests | scripts/parallel_tests.py:107-113 | Between them they hold every test of the lane |
| TestPlan.PackShort | scripts/parallel_tests.py:117-124 | Short batches hold the short units in order, within target or of one unit, and neighbours of one priority together exceed it |
| TestPlan.Pack | scripts/parallel_tests.py:107-125 | A lane's batches are its long units and packed short ones: whole groups, uniform flags, every test once, priority first, longest first |
| TestPlan.ShortBatchLimit | scripts/parallel_tests.py:114-124 | At most 2S/target + 2 short batches for total short time S |
| TestPlan.TargetExactly | scripts/parallel_tests.py:117-117 | The target is the short time for each of four batches a worker, within one and twenty seconds |
| TestPlan.BatchesPerWorker | scripts/parallel_tests.py:117-124 | Unless the target is cut off at either bound, a lane has at most eight short batches a worker and two |
| TestPlan.StartOrder | scripts/parallel_tests.py:104-105 | Sorted batches have priority modules first, and the longer first among equals |
| TestPlan.PackOrder | scripts/parallel_tests.py:119-119 | Short units are packed priority modules first, and by the id of their first test among equals |
| TestPlan.FewShortBatches | scripts/parallel_tests.py:117-124 | The greedy gap bound on any well filled list of short batches |
| TestPlan.NoGroupIsSplit | scripts/parallel_tests.py:92-102 | Tests with one fixture key are never in two batches |
| TestPlan.SortSorts | scripts/parallel_tests.py:104-105 | The ordering used for batches sorts |
| TestScheduler.SelectRows | scripts/parallel_tests.py:244-256 | The loop keeps exactly the first record of each own test and all non-test rows, counting the rest as problems |
| TestScheduler.RunBatch | scripts/parallel_tests.py:236-299 | Reconciles a worker's output as the specification function of which `ReconciledExactly` and the lemmas after it say what it is |
| TestScheduler.ReconciledExactly | scripts/parallel_tests.py:244-274 | A test without a result is skipped exactly under fail-fast with a worker that ended with status one, nothing malformed, only first results of own tests, and a summary; in every other case it gets exactly its error record, and the first result of every own test is kept |
| TestScheduler.FailedExactly | scripts/parallel_tests.py:244-299 | A batch fails exactly unless its worker's status, results and one summary agree, in terms of the raw output |
| TestScheduler.ReconciledAccounts | scripts/parallel_tests.py:244-274 | Whatever the worker wrote, each test of its batch is recorded or skipped, never both and nothing else |
| TestScheduler.ReconciledOnce | scripts/parallel_tests.py:244-274 | A test listed once has at most one record |
| TestScheduler.FailureShows | scripts/parallel_tests.py:147-163 | No summary can hide a failing record or count |
| TestScheduler.PassingExactly | scripts/parallel_tests.py:236-299 | A report gives no reason to fail exactly when the worker was clean: status zero, one good record per test, one true summary, nothing malformed or foreign |
| TestScheduler.CleanIsPassing | scripts/parallel_tests.py:257-299 | A clean worker's rows are kept unchanged and its batch does not fail |
| TestLanes.Scheduler.Take | scripts/parallel_tests.py:194-199 | Takes the first batch of its lane unless stopped or empty, numbering it, and changes nothing else |
| TestLanes.Scheduler.RunBatch | scripts/parallel_tests.py:236-323 | The locked section publishes the reconciled rows, up to and including the one at which the sink raises |
| TestLanes.Scheduler.Publish | scripts/parallel_tests.py:300-323 | The whole new shared state after a report, for every place where the sink may raise |
| TestLanes.Scheduler.FailBatch | scripts/parallel_tests.py:325-344 | Adds one problem and one error record for each test without a record, up to a raising sink |
| TestInterleavings.AlwaysAccounts | scripts/parallel_tests.py:194-363 | After any events of any threads: queued, held and closed batches hold exactly the planned tests; closed tests have a result; only closed or broken-off ones have |
| TestInterleavings.InOnePlace | scripts/parallel_tests.py:194-363 | A test planned once is always in exactly one of queued, held, closed; no result before its batch reports, then exactly one record or a skip |
| TestInterleavings.NothingForeign | scripts/parallel_tests.py:236-344 | A test that was not planned never gets a result |
| TestInterleavings.FinishAccounts | scripts/parallel_tests.py:236-323 | One batch's section keeps the bookkeeping, wherever the sink raises |
| TestInterleavings.HandleAccounts | scripts/parallel_tests.py:325-344 | So does the exception handler |
| TestInterleavings.OneGraphicalAtATime | scripts/parallel_tests.py:346-363 | Two threads never hold graphical batches at once |
| TestInterleavings.FailureStops | scripts/parallel_tests.py:322-323 | Under fail-fast, once a batch has failed no lane gives out a batch again, whatever happens |
| TestInterleavings.HandlerStops | scripts/parallel_tests.py:325-344 | Nor once the exception handler has dealt with one |
| TestInterleavings.StaysStopped | scripts/parallel_tests.py:194-199 | Lanes that are stopped stay as they are |
| TestInterleavings.NeverStops | scripts/parallel_tests.py:194-363 | Without fail-fast nothing ever stops them |
| TestVerdict.Verdict | scripts/parallel_tests.py:401-445 | True exactly when nothing failed, nothing is unstarted, there is no problem, and each planned test and no other has one record |
| TestVerdict.SuccessExactly | scripts/parallel_tests.py:366-445 | When all threads have ended: success exactly if nothing raised, every worker was clean and no test is in two batches, for every interleaving |
| TestVerdict.SuccessForDistinctPlan | scripts/parallel_tests.py:366-445 | For a plan without repeated tests, success is exactly that nothing raised and every worker was clean |
| TestVerdict.AlwaysJudged | scripts/parallel_tests.py:300-344 | An exception always leaves a problem or a thread about to report one; without exceptions the state is free of complaints exactly when all workers were clean |
| TestVerdict.AlwaysDrained | scripts/parallel_tests.py:346-351 | A thread leaves only when its lane is stopped or empty |
| TestSkips.BothExactly | scripts/parallel_tests.py:325-344 | While no thread died, a test is both recorded and skipped exactly when the handler dealt with a batch that had skipped it |
| TestSkips.SkippedAndRecorded | scripts/parallel_tests.py:300-344 | Such a run: one worker, two tests, fail-fast, a sink that raises once |
| TestRun.RunSucceedsExactly | scripts/parallel_tests.py:366-445 | From any plan that partitions distinct selected tests, for every interleaving: success exactly if nothing raised and every worker was clean, and then exactly one record, not failing, for each selected test and for no other |
| TestRun.PlannedExactly | scripts/parallel_tests.py:90-127 | The lanes plan exactly the ids of the selected tests |
| Crc32c.Compute | scripts/checkpoint_payload.py:9-16 | The loop computes the complemented remainder of the inverted-start message polynomial, bit-reflected (section 12.1 of RFC 3720) |
| Crc32c.ChecksumUnique | scripts/checkpoint_payload.py:9-16 | The checksum is the only 32-bit word with that remainder |
| Crc32c.PolynomialIsGenerator | scripts/checkpoint_payload.py:15-15 | The constant is the reflected Castagnoli generator |
| Crc32c.RegisterDivides | scripts/checkpoint_payload.py:12-15 | Shifting bytes through the register is polynomial long division |
| Crc32c.ChecksumAffine | scripts/checkpoint_payload.py:9-16 | Affine under XOR on messages of one length |
| Crc32c.ShiftBijective | scripts/checkpoint_payload.py:15-15 | The one-bit step is a bijection on 32-bit words, with its inverse |
| Crc32c.BitBurstDetected | scripts/checkpoint_payload.py:9-16 | Messages that differ only within 32 consecutive bits have different checksums |
| Crc32c.FourByteBurstDetected | scripts/checkpoint_payload.py:9-16 | Messages that differ only within four consecutive bytes have different checksums, at every length |
| Gf2Division.LongDivision | scripts/checkpoint_payload.py:12-15 | Bitwise division yields quotient and remainder over GF(2) |
| Gf2Division.DivideIsRemainder | scripts/checkpoint_payload.py:12-15 | The register is the remainder and the only one |
| Gf2Division.DivideLinear | scripts/checkpoint_payload.py:12-15 | Division is linear in state and message |
| Gf2Division.StepBijective | scripts/checkpoint_payload.py:15-15 | One step is a bijection of states when the generator has a constant term |
| Gf2Division.BurstDetected | scripts/checkpoint_payload.py:12-15 | A difference within one register width changes the remainder |
| ExplorationRoute.DisclosedExplorationRoute | scripts/process_harness.py:117-137 | A shortest walk to a reachable stair; without one, a shortest walk to a reachable unvisited cell; none exactly when neither exists; each step is one cell west, east, north or south as labelled |
| ExplorationRoute.ReachesExactly | scripts/process_harness.py:117-137 | What one pass looks for is a walk of labelled single steps on the floor to another stair, or to another cell not yet visited |
| ExplorationRoute.Search | scripts/process_harness.py:123-136 | One breadth-first pass finds a shortest walk to its goal whenever it is reachable, and ends |
| ExplorationRoute.Expand | scripts/process_harness.py:131-135 | Trying the four directions keeps the frontier and sees every neighbour |
| ExplorationRoute.ShortWalkIsDone | scripts/process_harness.py:126-135 | A walk shorter than every queued path stays among cells already handled |
| ExplorationRoute.GoalsAreFar | scripts/process_harness.py:126-130 | While no handled cell is a goal, no goal is nearer than the head of the queue |
| TurnScheduler.ExpectedActions | scripts/performance_report.py:47-70 | Produces the schedule of the minimum-(ready, index) scheduler after the history of waits, for every script, whenever that schedule ends at all |
| TurnScheduler.ServeOthers | scripts/performance_report.py:62-68 | The inner loop serves whoever is due until it is the first actor's turn; it ends if some secondary step is accepted or the first actor is not behind the second |
| TurnScheduler.ScheduleCanEnd | scripts/performance_report.py:47-70 | Only under the condition of `ExpectedActions` is there a schedule: a single actor, an accepted secondary step, an empty script, or a history that does not leave the second actor due and a script whose accepted steps have none after them |
| TurnScheduler.NoSchedule | scripts/performance_report.py:47-70 | An input without a schedule: two actors, two waits, only rejected secondary steps |
| TurnScheduler.Append | scripts/performance_report.py:53-57 | Recording an action charges the due actor and extends the schedule |
| TurnScheduler.CostExactly | scripts/performance_report.py:53-57 | A blocked step costs nothing, any other 100 ticks or, along a diagonal, 142 |
| TurnScheduler.ClosedForm | scripts/performance_report.py:50-50 | The closed-form clocks are exactly the result of the waits |
| TurnScheduler.ScheduleUnique | scripts/performance_report.py:47-70 | There is only one schedule for a script |
| TurnScheduler.ScheduleSpread | scripts/performance_report.py:47-70 | Clocks never differ by more than 142 |
| TurnScheduler.ServedInOrder | scripts/performance_report.py:62-62 | Served ready times never decrease |
| TurnScheduler.AllBlockedNeverEnds | scripts/performance_report.py:62-68 | Once the second actor is due and all its steps are blocked, the loop can only repeat it without moving any clock |
| TreeEdits.EditsCommute | scripts/arena_search_parameters.py:115-141 | Two edits at targets that do not interfere have the same outcome in either order, success or failure |
| TreeEdits.OrderIrrelevant | scripts/arena_search_parameters.py:113-142 | So do any two orders of a set of edits |
| TreeEdits.AllSucceed | scripts/arena_search_parameters.py:113-142 | All edits succeed exactly when each would on the original document |
| TreeEdits.LocateAfter | scripts/arena_search_parameters.py:120-133 | After an edit every path, by index or identity, leads where it led |
| TreeEdits.AddressesDiffer | scripts/arena_search_parameters.py:103-105 | Prefix-incomparable paths are at different addresses, even through identity lookups |
| TreeEdits.LocateExactly | scripts/arena_search_parameters.py:119-137 | A path is found at an address exactly if it leads there key by key: an index to that element of a list, a name to that entry of a table, and in a list searched by identity to the only element whose pool, resource or id field has that name |
| TreeEdits.TargetsHold | scripts/arena_search_parameters.py:138-138 | Every target holds its value in the end |
| TreeEdits.RestKept | scripts/arena_search_parameters.py:112-142 | Everything else keeps its value, every container its positions or keys |
| ParameterSpec.ValidateSpec | scripts/arena_search_parameters.py:70-106 | Accepts exactly definitions whose targets are permitted, bounded and pairwise prefix-incomparable within a file |
| ParameterSpec.CheckTarget | scripts/arena_search_parameters.py:84-105 | Accepts a target exactly when it is permitted and conflicts with none before it |
| ParameterSpec.PermittedSpares | scripts/arena_search_parameters.py:18-67 | No permitted path ends in the field by which its own list is searched |
| ParameterSpec.PermittedMeans | scripts/arena_search_parameters.py:18-67 | Only build fields of creatures, intelligence profiles and ten named tables of the rules can be targets |
| ParameterSpec.ValidEdits | scripts/arena_search_parameters.py:70-106 | The edits of an accepted definition neither interfere nor touch identities |
| ParameterSpec.Walk | scripts/arena_search_parameters.py:119-137 | The loop over the keys finds the one address that the path leads to, or none exactly if it leads nowhere |
| ParameterSpec.ApplyDocument | scripts/arena_search_parameters.py:109-142 | Applies all targets of the file in order, or fails, as the function that `AppliesExactly` and `AppliedDocument` describe |
| ParameterSpec.ParameterOrderIrrelevant | scripts/arena_search_parameters.py:113-142 | The order of parameters and targets does not matter, not even for errors |
| ParameterSpec.AppliesExactly | scripts/arena_search_parameters.py:109-142 | A complete valid definition applies exactly when each of its targets leads to an existing scalar of its value's type in the original document |
| ParameterSpec.WantedExactly | scripts/arena_search_parameters.py:113-118 | The edits made to a file are exactly its targets with the values of their parameters |
| ParameterSpec.AppliedDocument | scripts/arena_search_parameters.py:109-142 | The result holds each value where its target led, every path leads where it led, and everything no target led to or through is as before |
| Materialization.RestoreFiles | scripts/arena_search_parameters.py:263-286 | Refuses exactly a target with foreign names; else ends with the source's files, and never has other names on the way |
| Materialization.RestoreAll | scripts/arena_search_parameters.py:263-286 | Four packages, from whatever killed processes left of them |
| Materialization.Output.RestorePackage | scripts/arena_search_parameters.py:263-286 | Refuses exactly a target with foreign names; else ends with the source's files, and never has other names on the way |
| Materialization.Output.EditPackage | scripts/arena_search_parameters.py:217-232 | Turns the restored source into the package that `BuiltExactly` describes or fails exactly when there is none |
| Materialization.BuiltExactly | scripts/arena_search_parameters.py:213-232 | A baseline package is its source with the resolved rules; a candidate package holds what the parameters make of each edited file, and all other files like the baseline |
| Materialization.BaselineUnaffected | scripts/arena_search_parameters.py:217-223 | Whatever the parameters, the two baseline packages are the same |
| Materialization.Output.BuildPackage | scripts/arena_search_parameters.py:211-246 | Finishes the next package and checkpoints it, leaving finished ones alone at every kill and at a change of its source, rules or compiler |
| Materialization.Output.CheckResume | scripts/arena_search_parameters.py:184-199 | The checks of a resumed run |
| Materialization.Output.Publish | scripts/arena_search_parameters.py:247-260 | The published result is that of an undisturbed run, with a plan exactly for a valid candidate |
| Materialization.ResultExactly | scripts/arena_search_parameters.py:211-260 | The result of an undisturbed run: four such packages in order with their digests and the compiler's answers; there is one exactly when the parameters apply |
| Materialization.Output.Materialize | scripts/arena_search_parameters.py:145-260 | From whatever killed processes left: refuses exactly other inputs and then changes nothing, keeps finished packages, stops at a change that is noticed meanwhile, and otherwise ends with the result that `ResultExactly` describes |
| Materialization.Output.Operate | scripts/arena_search_parameters.py:145-260 | The same for any number of processes, none of which is killed if it may take all steps |
| Materialization.BuiltKeys | scripts/arena_search_parameters.py:216-232 | A finished package has the file names of its source |
| CampaignRanking.Finalists | scripts/arena_search.py:79-89 | Three trials, each the best feasible one with new parameters; an error exactly when there are no three |
| CampaignRanking.FinalistsUnique | scripts/arena_search.py:79-89 | The records determine the finalists |
| CampaignRanking.FinalistsMean | scripts/arena_search.py:79-89 | Each finalist meets all constraints, and no other trial that does, with parameters unlike those before it, has a greater value, or the same and an earlier place |
| SearchTrial.RunTrial | scripts/arena_search.py:207-236 | From whatever killed processes left of the preparation and the batch: the evidence of the undisturbed trial, a kill only without enough steps, and failure only if there is no such evidence |
| SearchTrial.Prepare | scripts/arena_search.py:210-220 | The preparation of a trial, removed and begun anew without a checkpoint; a finished one stays untouched |
| SearchTrial.StartBatch | scripts/arena_search.py:186-204 | Killed anywhere before its first checkpoint, a batch is recovered from what was copied and starts with exact snapshots; it fails only if there is no undisturbed batch |
| SearchTrial.ResumeBatch | scripts/arena_search.py:225-231 | The batch's summary is that of the deterministic undisturbed batch; it fails only if there is none |
| SearchTrial.FindingsOf | scripts/arena_search.py:207-238 | What trials come to exists as values, so a valid campaign exists for every setting |
| SearchTrial.BaselineStops | scripts/arena_search.py:219-220 | A baseline package that the compiler refuses leaves the trial without evidence |
| SearchTrial.CandidateRefused | scripts/arena_search.py:219-236 | A candidate package that it refuses gives evidence with its failures and no summary |
| SearchTrial.CandidateMeasured | scripts/arena_search.py:221-236 | Otherwise there is evidence, with the summary of the undisturbed batch, exactly when each variant's two packages resolve differently and the baseline did not fail in that batch |
| SearchTrial.EvidenceExactly | scripts/arena_search.py:232-236 | Evidence is about the trial asked for and scores its parameters with that summary |
| SearchCampaign.Campaign.PublishConsistent | scripts/arena_search_parameters.py:289-294 | Writes what is missing and refuses exactly a different value; published values never change |
| SearchCampaign.Campaign.PrepareInputs | scripts/arena_search.py:166-183 | Restores the source packages, killed anywhere, or checks them, and never refuses its own |
| SearchCampaign.Campaign.EvaluateTrial | scripts/arena_search.py:207-238 | One trial on whatever its directory holds, and the publication of its evidence; it fails only where that trial has none |
| SearchCampaign.Campaign.Export | scripts/arena_search.py:241-259 | Restores and publishes the accepted packages, killed anywhere, and never refuses its own |
| SearchCampaign.Campaign.TrainOne | scripts/arena_search.py:278-287 | One trial extends the trajectory and the history, agreeing with what was retained |
| SearchCampaign.Campaign.Train | scripts/arena_search.py:265-287 | The history stays a prefix of the one trajectory, and training ends with all of it |
| SearchCampaign.Campaign.Winner | scripts/arena_search.py:302-307 | The best feasible screening result, the earlier trial among equals; none exactly when none is feasible |
| SearchCampaign.Campaign.Run | scripts/arena_search.py:262-317 | From whatever processes killed at any step of any trial left: never refuses, only adds to what is published, and reports what an undisturbed campaign does, unless a trial that it comes to has no evidence |
| SearchCampaign.Campaign.Operate | scripts/arena_search.py:262-317 | The same for any number of processes |
| SearchCampaign.ReportedExactly | scripts/arena_search.py:262-317 | A process that may take all its steps reports if and only if the campaign has a report, and then that one |
| SearchCampaign.ReportedNeverStuck | scripts/arena_search.py:278-317 | A campaign with a report comes to no trial without evidence: not in training, not among the finalists, not for the winner |
| SearchCampaign.SameReport | scripts/arena_search.py:262-317 | All processes that report report the same |
| SearchCampaign.OneReport | scripts/arena_search.py:288-317 | The training records determine the report |
| SearchCampaign.JudgedMeans | scripts/arena_search.py:301-311 | Of the screened finalists that meet all constraints the winner has the greatest value, the earliest of equals; it is accepted exactly if its acceptance meets all constraints and reaches the threshold |
| SearchCampaign.InfeasibleMeans | scripts/arena_search.py:302-306 | Screening is infeasible exactly if no finalist meets all constraints there |
| SearchCampaign.TrajectoryVerifies | scripts/arena_search_sampling.py:148-164 | A history on the trajectory always passes verification |
| BinaryArchive.CheckArchive | scripts/ci_binary_artifact.py:316-340 | Accepts exactly the tar archives (`EncodedExactly`) of contents with the declared sizes and digests, and extracts these contents |
| BinaryArchive.CheckMember | scripts/ci_binary_artifact.py:319-337 | Fails exactly when no declared member comes next |
| BinaryArchive.WriteArchive | scripts/ci_binary_artifact.py:282-304 | Writes the tar archive that `EncodedExactly` describes exactly when it passes the size check and every file still has its size |
| BinaryArchive.WriteMember | scripts/ci_binary_artifact.py:292-303 | Fails exactly for a truncated or grown file |
| BinaryArchive.Package | scripts/ci_binary_artifact.py:274-307 | With its final check: a tar archive (`EncodedExactly`) exactly for files within the bounds, alone and together, and as declared, and reading it back gives these files |
| BinaryArchive.ReadBlocks | scripts/ci_binary_artifact.py:322-330 | Reads exactly the size in blocks, or fails at the end of the source |
| BinaryArchive.OneReading | scripts/ci_binary_artifact.py:316-340 | An archive has only one reading |
| BinaryArchive.EncodedExactly | scripts/ci_binary_artifact.py:288-304 | The one byte sequence in which each header is followed by its contents, the next member starts at the least multiple of 512 not before their end, and between 1024 and 11263 zeros fill up the last record |
| BinaryArchive.PaddingExactly | scripts/ci_binary_artifact.py:300-300 | A member is padded to the next multiple of 512 with less than 512 zeros |
| BinaryArchive.OneArchive | scripts/ci_binary_artifact.py:274-340 | With collision-free digests a manifest admits one archive |
| BinaryArchive.WholeRecords | scripts/ci_binary_artifact.py:304-304 | Every archive fills whole 10240-byte records |
| BinaryArchive.SizeCheckSuffices | scripts/ci_binary_artifact.py:283-284 | Passing the size check bounds the whole archive |
| BinaryArchive.TailExceedsAllowance | scripts/ci_binary_artifact.py:283-304 | Yet the zeros at the end exceed the 10240 bytes that the check adds exactly when the members end one block before a record, and then by one block |
| BinaryArchive.SomeTailExceeds | scripts/ci_binary_artifact.py:283-304 | Six executables whose sizes `package` accepts and whose archive does so |
| CombatWindow.CollectWindow | scripts/combat_diagnostics.py:47-93 | Accepts exactly the page lists that show one complete window, and returns it |
| CombatWindow.ReadPage | scripts/combat_diagnostics.py:54-88 | A page passes exactly when it is consistent and agrees with what is known |
| CombatWindow.ShowsOne | scripts/combat_diagnostics.py:47-93 | A page list shows at most one window |
| CombatWindow.ShownMeans | scripts/combat_diagnostics.py:47-93 | A shown window has all retained records, at most 64, numbered on from the dropped ones, none after its tick or of owner zero, on at most 64 pages of at most eight |
| CombatWindow.KnownIsAll | scripts/combat_diagnostics.py:89-92 | As many known records as are retained are all of them, without a gap |
| CombatWindow.RecutPages | scripts/combat_diagnostics.py:47-93 | Re-cut, repeated or permuted pages that cover the window give the same window |
| CombatWindow.ReorderedPages | scripts/combat_diagnostics.py:47-93 | Only the set of pages matters, within the page limit |
| CombatWindow.PagesShow | scripts/combat_diagnostics.py:104-107 | A window cut into pages of eight is shown by them |
| CombatWindow.ShownExactly | scripts/combat_diagnostics.py:47-93 | Some pages show a window exactly unless records were captured and all dropped |
| CombatWindow.DroppedIsNeverShown | scripts/combat_diagnostics.py:80-82 | Such a window, consistent but shown by no pages |
| CombatWindow.VerifyExport | scripts/combat_diagnostics.py:96-110 | Accepts exactly the exports of windows that pages can show |
| CombatWindow.CollectAndVerify | scripts/combat_diagnostics.py:47-110 | What was collected always verifies |
| CombatWindow.NumericalEqual | scripts/combat_diagnostics.py:113-116 | Compares the numerical payloads of verified exports, given collision-free digests |
| CombatWindow.RenamingIsInvisible | scripts/combat_diagnostics.py:39-44 | Renaming payment owners keeps window and numerical payload |
| CombatWindow.SameNumbers | scripts/combat_diagnostics.py:39-44 | Equal numerical payloads differ in nothing but owner names |
| WireNumbers.WireIntegerExactly | scripts/detection_process_package.py:158-168 | Accepts exactly the canonical text of a number in range |
| WireNumbers.ParseDecimal | scripts/detection_process_package.py:158-168 | Reading what was written gives the number back |
| WireNumbers.NaturalIs | scripts/detection_process_package.py:158-168 | Each digit is the character that many after zero, the last one being the remainder by ten |
| ChartPages.ValidatePages | scripts/detection_process_package.py:171-252 | Accepts exactly the legal pagings of one well-formed record list for the request, and returns the list |
| ChartPages.ReadPages | scripts/detection_process_package.py:189-204 | The page loop accepts exactly pages that carry on from each other to the total |
| ChartPages.CheckRecords | scripts/detection_process_package.py:205-252 | Accepts exactly well-formed record lists |
| ChartPages.CheckRows | scripts/detection_process_package.py:214-251 | Comparing neighbours orders all rows |
| ChartPages.RowOrder | scripts/detection_process_package.py:214-251 | Ordered rows are by component number, then by coordinates, then by the names they show |
| ChartPages.RowMeans | scripts/detection_process_package.py:214-251 | A row belongs to a declared component and has three signed 64-bit coordinates exactly if that is aligned |
| ChartPages.MarkMeans | scripts/detection_process_package.py:214-251 | A row shows what its transfer is about, a wall face with a unit normal exactly if the row has a place |
| ChartPages.PagedExactly | scripts/detection_process_package.py:189-204 | Pages that carry on are exactly a paging of their records |
| ChartPages.Repaged | scripts/detection_process_package.py:171-252 | In any other legal page sizes the records are accepted again and returned unchanged |
| ChartPages.PagingAt | scripts/detection_process_package.py:189-204 | Page k starts after the records before it, holds the next ones, and names where to go on exactly if there are more |
| ChartStream.Stream | scripts/detection_process_package.py:325-378 | Publishes exactly the transfer of the last matching initial request that may be published; a complete one is a legal paging |
| ChartStream.FindRun | scripts/detection_process_package.py:338-351 | The last initial request and its continuations |
| ChartStream.CollectReplies | scripts/detection_process_package.py:354-370 | One reply for each request, each continuing the one before; an error exactly when there is no such list |
| ChartStream.Publish | scripts/detection_process_package.py:352-378 | Publishes exactly a duplicate-free, ordered and, if complete, valid exchange |
| ScriptDependencies.Dependents | scripts/ci_test_contracts.py:434-440 | Exactly the scripts that a chain of callers leads to: the least closed set with the script |
| ScriptDependencies.ReverseGraph | scripts/ci_test_contracts.py:407-424 | The graph holds exactly the imports and reviewed runtime edges between scripts |
| ScriptDependencies.Callers | scripts/ci_test_contracts.py:399-431 | Fails exactly when an unreviewed literal reference touches what a change affects |
| ScriptDependencies.ReferencesCovered | scripts/ci_test_contracts.py:425-431 | Without such a reference, following literals leads to nothing new |
| TestSelection.Select | scripts/ci_test_contracts.py:443-619 | Demands the full run exactly for refused, unowned or unresolvable changes; else selects the union of what the changes demand |
| TestSelection.NothingMissed | scripts/ci_test_contracts.py:506-543 | Without the full run, every test whose module depends on a changed script, by import, runtime edge or literal, is in both debug lanes |
| TestSelection.FamiliesSelected | scripts/ci_test_contracts.py:506-543 | The family of every dependent test is among the kept contracts, unless no applications are built and it needs none; a dependent process test has them built |
| TestSelection.ServiceSelected | scripts/ci_test_contracts.py:506-543 | A changed script on which the service tests depend has Rust and applications built and the service contracts kept |
| TestSelection.MachinerySelected | scripts/ci_test_contracts.py:506-543 | Changed runtime machinery keeps every process test and every extended contract, once applications are built |
| TestSelection.TrimmedExactly | scripts/ci_test_contracts.py:612-616 | Without applications exactly what needs them is left out |
| TestSelection.SelectionGrows | scripts/ci_test_contracts.py:443-619 | More changed paths only enlarge lanes or force the full run |
| NoBuildAudit.ValidateAudit | scripts/ci_no_build.py:200-261 | Accepts exactly well-formed logs within the size bound, with no unfinished line, whose requests and completions match, and counts them |
| NoBuildAudit.AuditLog.Dispatch | scripts/ci_no_build.py:169-197 | Logs the request and, if permitted, the completion |
| NoBuildAudit.AuditExactly | scripts/ci_no_build.py:159-261 | The log of any interleaving is accepted exactly when every begun run was permitted, ended and returned zero, and then counts these runs |
| NoBuildAudit.FineExactly | scripts/ci_no_build.py:159-261 | Which runs are in order: not begun, or ended with status zero after an allowed action of a recorded tool that had not changed |
| NoBuildAudit.CheckInterleaving | scripts/ci_no_build.py:159-261 | The checker on the log of any interleaving, within the size bound |
| NoBuildAudit.AlwaysTracked | scripts/ci_no_build.py:159-197 | After any moves the log says exactly which runs began and which ended |
| PerfLedger.NearestRankIs | scripts/perf_ledger.py:42-46 | For percent 1 to 100 the rank is in bounds and gives the least sample that at least that share does not exceed |
| PerfLedger.Distribute | scripts/perf_ledger.py:49-52 | Percentiles of the samples in any order, with p50 <= p95 <= max |
| PerfLedger.ValidateLedger | scripts/perf_ledger.py:286-311 | No problem exactly for good lines with distinct keys and dates in order that end with a newline |
| PerfLedger.Ledger.AppendEntry | scripts/perf_ledger.py:352-359 | Adds the line exactly when the text with it is a ledger, for every way in which the text may end |
| PerfLedger.LedgerGrows | scripts/perf_ledger.py:352-359 | Any number of appends keeps the text as a prefix, keys distinct, dates in order, and refuses exactly known keys and earlier dates |
| PerfLedger.NeverJoined | scripts/perf_ledger.py:352-359 | Nothing is appended to a text that ends within a line |
| PerfLedger.AppendAll | scripts/perf_ledger.py:352-359 | A run of appends to any text |

## Left out

- Subprocesses, sockets, databases, native windows, command lines and the file system below single atomic writes: what
  they return is an arbitrary input.
- SHA-256, JSON, TOML, tar header bytes and number formatting of floats: uninterpreted functions, or values that stand
  for what a text parses to.
- Randomly named temporary files of a killed write, symlink and stat-identity checks: no part of the modelled state.
- The engine's reports beyond participants and termination, and their scalar field checks.
- ArenaEvaluation.Directory.ReadCheckpoint: the size bound on reading a single record file is left out; no process writes
  a larger one.
- TestPlan.PackShort: the source extends the current batch object in place; here it is replaced in the list, so aliasing
  of batch objects is not captured. Durations are reals, not floats.
- TestLanes.Scheduler.RunBatch: the output stream is assumed not to raise once the section has begun to change the
  shared state; an exception before that is the event `Upset`.
- TestLanes.Scheduler.FailBatch: the output stream is assumed not to raise here.
- TestVerdict.Verdict: locally run loader failures enter only as counts, and waived tests, which are never planned, not
  at all.
- TreeEdits.LocateAfter: documents are values, as parsed TOML has no sharing; the walk carries an address where the
  source carries a reference.
- ParameterSpec.ValidateSpec: JSON shape checks and the parsing of file names are left out; a file is one of the accepted
  kinds or none. The parameter space and the check of values against it are not part of this model.
- SearchTrial.RunTrial: no change of sources, rules, compiler or executable is noticed during a trial; how
  `materialize` treats one is in `Materialization`. Whether snapshots still equal their fingerprints is not checked again.
- SearchTrial.StartBatch: the copies of `run_batch` are made file by file like those of `recover_unstarted_batch`;
  a partly copied file needs no state of its own, as any content is overwritten.
- SearchCampaign.Campaign.Run: sampling internals, configuration checks, the check of retained inputs and the size bound
  of the campaign's own artifacts are left out. `summary` and record values are functions of the batch summary.
- CampaignRanking.Finalists: the hash of parameters is taken to be injective.
- BinaryArchive.CheckArchive: executables come in the order of their names; file modes and the destination directory
  are left out.
- ChartPages.ValidatePages: objects with missing or additional fields are one malformed value.
- ChartStream.Stream: the lock and the capture of traffic are left out; the logs are inputs.
- TestSelection.Select: the ownership tables and the classification of paths outside `scripts/` are parameters; when the
  full run is demanded the lanes are not specified, as nothing uses them then.
- NoBuildAudit.ValidateAudit: manifest and tool checks are one flag.
- PerfLedger.Ledger.AppendEntry: a remainder that is only blank for `strip`, but not for JSON, counts as a line that was
  not ended.
- PerfLedger.ValidateLedger: the problems of a single entry are one flag, dates count days, and only whether there are
  problems is specified, not their number.
- The single-field validators of performance reports, package builders and service tests would only add conjunctions
  that one branch settles.
