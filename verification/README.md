# Reconmap: what its hard parts promise, proved

Reconmap plans and runs security scans, keeps a hierarchy of assets, and offers a few small tools around
them. This project models the parts of it whose correctness is not visible in any one function, and proves
what they promise. Every statement holds for all inputs, all runs or all reachable states.

## What is modelled

**The scan execution protocol** (`ScanStatus`, `ScanApi`, `Runner`, `ScanProtocol`, `ScanInvariant`,
`ScanTablesInvariant`, `ScanSafety`, `ScanRuns`, `ScanWindow`, `ScanLost`, `ScanProgress`, `ScanRace`, `ScanReports`,
`ScanOutcome`, `ScanPlanned`, `ScanPass`). The API stores a run, its tasks and one
"once" schedule per task. A runner polls the schedules, reconciles its scheduler with them, executes, reports
`running` and then a terminal status, and deletes the schedule. `ScanApi` and `Runner` hold the objects with
their methods, each proved against a function of the old state. `ScanProtocol` is the step system built
from those same functions: the tables, the map of active schedules, the scheduler's jobs, the list being
reconciled one entry at a time, and a program counter per execution. Steps interleave freely. `NewJob` may
fail, and a report or a delete may be lost or may reach the tables although the runner saw an error. The API
guards no task transition, so that a task never moves back is an invariant of the whole protocol and not of
any endpoint.

What is promised holds for tasks that nothing outside the protocol touches. The field `tainted` of a world
collects the others: tasks a user-made schedule points at, tasks that somebody else reported on, and tasks
that were already over when the runner restarted while their schedule was still stored and would not be
refused. The last exclusion is exact: `ScanWindow.RestartIsExact` shows that a finished task can move back
after a restart, with the protocol left alone, exactly when it is one of these. In runs without restarts,
schedules by users for scan tasks and reports by others nothing is excluded
(`ScanRuns.UndisturbedTaskNeverMovesBack`).

`ScanLost` follows a lost terminal report: the task keeps the status it had until the runner restarts, and for
good if the delete that follows arrives. `ScanProgress` is the other side: it says from exactly which reachable states a
task, or a whole run, can still come to an end. `ScanOutcome` traces every stored verdict back to the execution that gave
it, and `ScanPlanned` every executed command to the recommendation it was stored for. In the step system the API serves one request at a time. `ScanRace`
takes a report apart into its read and its save and says what two overlapping ones leave: the same tables as one
after the other, except when they end the last two open tasks of a run, which then stays active.

**The command line** (`CommandLine`). The API composes a line from an executable and its arguments, and
the runner splits it with a quote automaton. The automaton is proved against a grammar of tokens, is onto,
inverts a quoting printer, and treats a composed line as the parts it was composed from, under the exact
conditions on open quotations.

**The asset hierarchy** (`ParentChain`, `AssetTable`, `AssetWalk`, `AssetRace`, `AssetUpsert`, `AssetHistory`,
`AssetView`, `AssetForest`, `AssetOrder`, `AssetBuild`). The server keeps parent pointers, guards moves by a walk without a visited
set, and merges discovered trees by name; the dashboard rebuilds a forest from a flat and possibly broken list,
sorts, flattens and collapses it, and prints paths. `AssetBuild.ServerForest` connects the two representations.
`AssetWalk` says on which tables the walk ends, namely those without a circle in its way, and what an update does
there, `AssetRace` when two moves at once close a cycle, and `AssetUpsert` that ingesting a tree is an idempotent
merge.

**Random integers and passwords** (`Sampling`, `Shuffle`, `ShuffleCount`, `Passwords`). Rejection sampling with an exact
count of the draws behind each result, the Fisher-Yates loop as a bijection, and both together: every order of distinct
elements has the same number of accepted draws behind it. The generator makes exactly the passwords its settings allow.

**Kernels** (`Doubles`, `Pagination`, `CvssVector`, `FixedPoint`, `FileSize`). A page count that goes through a
double-precision division, the reader and printer of CVSS vectors, and file sizes with their unit and printed digits.

Source that changes state is modelled by methods, loops, arrays and classes; source made of expressions is
modelled by functions. `Text`, `Collections` and `Arithmetic` hold shared definitions.

## Where the documentation and the code differ

- `run_status` in `testing/scripts/generate_demo_data.py` says that it mirrors `ScanRun.RecomputeStatus`, but
  it calls a run without tasks queued, while the server leaves its status as it is. `ScanStatus.MirrorAgrees`
  says exactly when they agree.
- `src/dashboard/src/services/passwords.ts:2` says that a length is between 5 and 128; nothing enforces it, and the
  model follows the code.
- `src/dashboard/src/models/assetTree.ts:14` speaks only of nodes whose parent is missing. Nodes on a parent cycle,
  and all below them, are in no tree: `AssetForest.ForestCounts`.

## Model

| member | source | states |
|---|---|---|
| ScanStatus.RecomputeStatusMeaning | src/server/Api/Domain/Entities/ScanRun.cs:41-53 | What each derived run status says about the tasks, both ways: queued is all queued, succeeded and failed are all so, partial is all over with both outcomes present, active is some task not over |
| ScanStatus.RecomputeStatusOfMultiset | src/server/Api/Domain/Entities/ScanRun.cs:41-53 | The derived status depends on the multiset of task statuses only |
| ScanStatus.RunNeverMovesBack | src/server/Api/Domain/Entities/ScanRun.cs:41-53 | While tasks only move forward the derived status never moves back, and a finished one never changes |
| ScanStatus.MirrorAgrees | testing/scripts/generate_demo_data.py:302-313 | The generator's mirror agrees with the server's rule exactly when the run has tasks or is still queued |
| ScanStatus.ParseTaskStatus | src/server/Api/Domain/Entities/ScanRun.cs:8-14 | Exactly the names of queued, running, succeeded and failed are accepted, each as its own status |
| ScanApi.ScanService.CreateOne | src/server/Api/Controllers/ScanRunsController.cs:57-120 | The whole answer and the whole new state: a blank target or missing project and an empty recommendation change nothing; a value too long for its column in the first save changes nothing, and a composed line too long in the second leaves the run and its tasks stored without schedules; otherwise there is a new run with one queued task per recommendation, in order, and exactly one new "once" schedule per task, with its command id and a line that splits into its path and its arguments; earlier rows stay, and every table invariant survives |
| ScanApi.LineTooLong | infra/postgres/initdb/sql/01-schema.sql:314 | Parts that fit their columns can make a line that does not, so the second save can fail after the first |
| ScanApi.ScanService.SaveRun | src/server/Api/Controllers/ScanRunsController.cs:75-100 | The loop stores the run with one queued task per recommendation, in order |
| ScanApi.AddRunStores | src/server/Api/Controllers/ScanRunsController.cs:75-100 | The new run has one new queued task per recommendation, in order, and no other row changes |
| ScanApi.ScanService.SaveSchedules | src/server/Api/Controllers/ScanRunsController.cs:103-117 | The loop stores one "once" schedule per task, pointing back at it, in order |
| ScanApi.OnceRuns | src/server/Api/Controllers/ScanRunsController.cs:105-114 | The schedule of a task has its command id, and its line splits into the words of the path and of the arguments exactly when no open quotation joins them |
| ScanApi.ScanService.UpdateTaskStatus | src/server/Api/Controllers/ScanRunsController.cs:126-144 | Bad status, unknown task and success, with the whole new state: the status told, the error only if it failed, the start or finish time it stands for, and nothing else; the tables stay valid |
| ScanApi.UpdateTaskValid | src/server/Api/Controllers/ScanRunsController.cs:133-141 | After every report that is served alone each run's stored status equals the one derived from its tasks, and start, finish and error fields agree with the task status |
| ScanApi.UpdateTaskStores | src/server/Api/Controllers/ScanRunsController.cs:133-136 | A report stores its status, its error if it failed and none otherwise, and the time it stands for; run, plan, other tasks and schedules stay |
| ScanReports.LastReportStored | src/server/Api/Controllers/ScanRunsController.cs:126-143 | Over any sequence of accepted reports of a task: the last status, the last error if that was `failed`, the time of the last start and of the last end; nothing else changes |
| ScanApi.AddRunValid | src/server/Api/Controllers/ScanRunsController.cs:75-100 | Storing a run with its tasks keeps every table invariant |
| ScanApi.AddSchedulesValid | src/server/Api/Controllers/ScanRunsController.cs:103-117 | Storing the schedules of existing tasks keeps every table invariant |
| ScanApi.ScanService.GetAll | src/server/Api/Controllers/CommandSchedulesController.cs:19-66 | The list holds every stored schedule exactly once |
| ScanApi.ScanService.DeleteOne | src/server/Api/Controllers/CommandSchedulesController.cs:134-145 | Removes the one row whose id and command both match, else answers not found and changes nothing |
| Runner.App.ReconcileSchedules | src/runner/internal/app.go:250-289 | The new map and jobs are those of the specification, the invariant of active jobs survives, `NewJob` calls are made in the specified order, and each dropped job is removed exactly once |
| Runner.App.AdmitListed | src/runner/internal/app.go:253-278 | The first loop, with every failing `NewJob` skipped and retried on a later pass |
| Runner.App.RemoveStale | src/runner/internal/app.go:280-288 | The second loop, whatever the order of the map |
| Runner.ReconcileOk | src/runner/internal/app.go:250-289 | A pass keeps the one-to-one relation between active ids and issued jobs |
| Runner.ReconcileActive | src/runner/internal/app.go:250-289 | Active ids afterwards are exactly the listed ones that were active or whose `NewJob` succeeded; kept ids keep their job; new ones get a job never issued before |
| Runner.ReconcileJobs | src/runner/internal/app.go:250-289 | The job of a newly active id runs a listed entry of that id; the jobs of the others stay as they were |
| Runner.AdmitAllActive | src/runner/internal/app.go:253-278 | The same for the first loop alone, with repeated ids in the list |
| Runner.StartsOnce | src/runner/internal/app.go:253-278 | However often a list repeats an id, it starts one job at most, none for an active id, and the number of jobs issued is the number started |
| Runner.QuietPass | src/runner/internal/app.go:253-278 | A pass calls `NewJob` for nothing exactly when every listed id is active, and then changes nothing |
| Runner.SecondPass | src/runner/internal/app.go:250-289 | A second pass over the same list is silent exactly when the first left every listed id active, in particular when no `NewJob` failed |
| Runner.App.RunSchedule | src/runner/internal/app.go:165-183 | Sends exactly the specified script of reports, execution and delete: for a task that is not refused `running`, then `succeeded` exactly when there was no error, else `failed` with it |
| Runner.App.ExecuteSchedule | src/runner/internal/app.go:194-214 | Refuses unreplaced placeholders and empty commands before anything is sent; otherwise reports running and executes the split words |
| Runner.App.ReportStatus | src/runner/internal/app.go:185-192 | Sends one report for a scan task and none for a schedule without task |
| Runner.ScriptReports | src/runner/internal/app.go:165-214 | A refused schedule reports `failed` and why, any other `running` and then `succeeded` without error or `failed` with it; the command is the split line, the delete comes last and only for "once" |
| Runner.ScriptOfNoTask | src/runner/internal/app.go:165-192 | A schedule without a scan task reports nothing; it is executed unless refused, and deleted if it runs once |
| Runner.RefusedExactly | src/runner/internal/app.go:194-202 | A line is refused exactly if three braces open anywhere in it or it is blank |
| Runner.WalkIsScript | src/runner/internal/app.go:165-214 | The program counter of the protocol sends exactly the script of the method |
| ScanPass.PassIsReconcile | src/runner/internal/app.go:250-289 | A poll, its entries one by one and the end of the pass leave the map and the jobs of the reconciliation |
| ScanSafety.StepInv | src/runner/internal/app.go:250-317 | Every enabled step of the protocol keeps the invariant: sound mentions, one job per schedule, one run per "once" schedule, and no agent left for a task that is over |
| ScanInvariant.EntryInv | src/runner/internal/app.go:253-278 | One entry of a list in progress, accepted or not, keeps the invariant although the table may have changed since the list was read |
| ScanInvariant.FireInv | src/runner/internal/app.go:261-270 | Starting a registered job keeps the invariant |
| ScanSafety.ProceedInv | src/runner/internal/app.go:165-214 | One action of an execution, delivered or lost, keeps the invariant |
| ScanSafety.StepForward | src/server/Api/Controllers/ScanRunsController.cs:126-143 | No step moves an untainted task back or changes its terminal status |
| ScanRuns.BehaviourInv | src/runner/internal/app.go:291-317 | The invariant holds in every state of every run |
| ScanRuns.TaskNeverMovesBack | src/runner/internal/app.go:165-214 | In every run, over every interleaving, the stored status of a task outside `tainted` never moves down the order queued, running, terminal, and a terminal status never changes |
| ScanRuns.UndisturbedTaskNeverMovesBack | src/runner/internal/app.go:165-214 | The same for every task, in runs without restarts, schedules by users for scan tasks and reports by others |
| ScanRuns.ScanRunNeverMovesBack | src/server/Api/Controllers/ScanRunsController.cs:138-141 | In every run, with requests served one at a time, the tables stay valid, so each run status is the derived one; while its tasks are outside `tainted` it never moves back, and a finished one stays |
| ScanRuns.UnscheduledStaysQueued | src/server/Api/Controllers/ScanRunsController.cs:99-117 | In every run, a task whose schedule was never stored stays queued as long as nobody else reports on it |
| ScanRace.ServedAlone | src/server/Api/Controllers/ScanRunsController.cs:126-144 | A report taken apart into its read and its save is, served alone, the update of the protocol |
| ScanRace.RacingReports | src/server/Api/Controllers/ScanRunsController.cs:126-144 | Two overlapping reports, each with its own error and time and each moving its task forward, leave the same tables as one after the other exactly unless, before them, they are about to end the last two open tasks of one run; then the run stays active with all its tasks over |
| ScanRace.RacingInProtocol | src/server/Api/Controllers/ScanRunsController.cs:126-144 | The same for any two reports in any state of the protocol, with no condition on the tables left |
| ScanRace.InvListedOnce | src/server/Api/Controllers/ScanRunsController.cs:75-100 | In every state of the protocol a run lists each of its tasks once |
| ScanRace.ReportRaceExists | src/server/Api/Controllers/ScanRunsController.cs:130-141 | A run whose two running tasks succeed at the same time ends with a wrong status |
| ScanRuns.OnceIsOnce | src/runner/internal/app.go:250-317 | In one runner's lifetime a schedule gets one job at most and a "once" schedule runs once at most, despite failed deletes and earlier `NewJob` failures |
| ScanWindow.RestartWindow | src/runner/internal/app.go:165-183 | From any state with a runnable "once" schedule still stored, a restart and five more steps make its task running again, whatever the status was |
| ScanWindow.RestartIsExact | src/runner/internal/app.go:165-183 | A finished task outside `tainted` can change its status after a restart, with the protocol left alone, exactly when its schedule is still stored and would not be refused |
| ScanLost.LostReportStays | src/runner/internal/app.go:185-192 | From a lost terminal report on, whether or not the delete is lost too, the task keeps the status it had until the next restart, and that status is an active one unless the schedule was refused |
| ScanLost.LostReportForever | src/runner/internal/app.go:185-192 | If the schedule is gone before the next restart, the task keeps that status for good, restarts included |
| ScanLost.DeleteFollows | src/runner/internal/app.go:175-176 | The delete that follows the lost report is enabled, and when it arrives the schedule of the task is gone |
| ScanOutcome.FinalReportArrives | src/runner/internal/app.go:168-173 | A final report that arrives leaves the task succeeded exactly when its execution gave no error, else failed with that error |
| ScanOutcome.ForeignReportArrives | src/server/Api/Controllers/ScanRunsController.cs:126-143 | A report by somebody else is stored like any other |
| ScanOutcome.UserScheduleStored | src/server/Api/Controllers/CommandSchedulesController.cs:118-130 | A schedule stored by a user is one new row with what was sent; all others stay |
| ScanOutcome.OutcomeIsStored | src/runner/internal/app.go:165-192 | In every run, whatever happens between the end of a command and the arrival of its final report, the task is then stored with the outcome of the command |
| ScanOutcome.VerdictIsSettled | src/runner/internal/app.go:165-214 | In every run, the verdict and the error of a task that is over are those of an earlier execution, refusal, or report by somebody else |
| ScanOutcome.VerdictIsEarned | src/runner/internal/app.go:165-214 | For a task outside `tainted` they are those of an execution or refusal: it is stored as succeeded only if its command ran without an error |
| ScanPlanned.RunsWhatWasPlanned | src/runner/internal/app.go:194-206 | In every run, what is executed for a task outside `tainted` is what was recommended for it: a plain path with the split of balanced arguments |
| ScanPlanned.PlanStays | src/server/Api/Controllers/ScanRunsController.cs:87-96 | In every run a task keeps the recommendation it was created with |
| ScanProgress.TaskCanFinish | src/runner/internal/app.go:250-317 | From every state of every run, an active task with its own schedule outside `tainted` has a continuation that ends it exactly when somebody attends to it (an execution, a job, the list being looked through, or a stored schedule that had no job yet) or, if the runner may restart, when a schedule for it is stored |
| ScanProgress.RunCanFinish | src/runner/internal/app.go:250-317 | A run can leave its active states without a restart exactly when each of its tasks is over or attended to, so that one continuation ends them all |
| CommandLine.SplitCommandLine | src/runner/internal/app.go:128-161 | The loop computes the fold of the automaton over the runes |
| CommandLine.SplitMeaning | src/runner/internal/app.go:128-161 | For every line the result is the words of its tokens: blanks separate, quotations and plain runes join, an open quotation runs to the end |
| CommandLine.SplitNothing | src/runner/internal/app.go:128-161 | A line splits into no word exactly when it is blank; an empty quotation is a word |
| CommandLine.SplitIsWords | src/runner/internal/app.go:128-161 | Any well-formed token sequence that spells the line gives the same words |
| CommandLine.Tokenize | src/runner/internal/app.go:128-161 | Every line has a token sequence that spells it |
| CommandLine.SplitAtBlank | src/runner/internal/app.go:128-161 | Splitting distributes over a blank exactly when no quotation is open there |
| CommandLine.PrintRoundTrip | src/runner/internal/app.go:128-161 | Every list of arguments, with empty ones, blanks and both quote runes, is read back exactly from its quoted print |
| CommandLine.SplitIsOnto | src/runner/internal/app.go:128-161 | Every list of arguments is the split of some line |
| CommandLine.TrimHarmless | src/server/Api/Controllers/ScanRunsController.cs:111 | Trimming keeps the words exactly when it cuts no trailing blank out of an open quotation |
| CommandLine.ComposedLine | src/server/Api/Controllers/ScanRunsController.cs:111 | For every executable and arguments: the composed line is split into the words of both exactly when the executable is balanced and trimming cut nothing out of an open quotation, or when it is unbalanced, ends on no blank and nothing but blanks follows |
| CommandLine.ComposedPlainPath | src/runner/internal/app.go:199-206 | A non-empty path without blanks or quotes is executed as it stands with the split of balanced arguments |
| ParentChain.PathShape | src/dashboard/src/models/assetTree.ts:37-48 | The path of a rooted node runs from a root to the node along parent links |
| ParentChain.PathDistinct | src/dashboard/src/models/assetTree.ts:37-48 | The path of a rooted node repeats nothing |
| AssetWalk.WalkEndsExactly | src/server/Api/Controllers/AssetsController.cs:148-165 | On any table the walk ends exactly when the new parent is in no circle of rows of the project without the asset |
| AssetWalk.CircleNeverEnds | src/server/Api/Controllers/AssetsController.cs:148-165 | Moving an asset under a node of a circle of parents of its project never gets an answer |
| AssetWalk.AssetsController.CanReparent | src/server/Api/Controllers/AssetsController.cs:148-165 | On every table on which the walk ends it accepts exactly when every node it visits is another row of the asset's project |
| AssetWalk.MayMoveExactly | src/server/Api/Controllers/AssetsController.cs:148-165 | Where the walk ends it accepts exactly when a chain of other rows of the project leads from the new parent up to a row without parent |
| AssetWalk.WalkIsAllowed | src/server/Api/Controllers/AssetsController.cs:148-165 | On a well-formed table the walk always ends, and accepts exactly the existing parents of the same project outside the asset's own subtree |
| AssetWalk.AssetsController.UpdateOne | src/server/Api/Controllers/AssetsController.cs:113-145 | The whole answer and new table, on every table on which the walk ends: not found, invalid parent, missing name, conflict or success |
| AssetWalk.UpdateAnswers | src/server/Api/Controllers/AssetsController.cs:113-145 | Which answer an update gets: not found, bad request exactly for an unfit parent or a blank name, conflict exactly if another row has the project, parent and name, else success, which stores the trimmed name and the parent |
| AssetWalk.UpdateAnyKeeps | src/server/Api/Controllers/AssetsController.cs:113-145 | On any table whose parents are rows, well formed or not, an update changes its own row or nothing; a successful one gives the asset a root and takes no other row's away |
| AssetWalk.UpdateOnForest | src/server/Api/Controllers/AssetsController.cs:113-145 | On a well-formed table every update is answered, and is the update that keeps the forest |
| AssetWalk.AcceptedMove | src/server/Api/Controllers/AssetsController.cs:148-165 | On any table whose parents are rows, a move the walk accepts closes no circle: rooted rows stay rooted and the moved one becomes so |
| AssetTable.UpdateWellFormed | src/server/Api/Controllers/AssetsController.cs:113-145 | An accepted update is one legal move that touches one row, keeps its project and never blanks its name, a refused one changes nothing, and either way the table stays an acyclic, project-closed forest with unique names among siblings |
| AssetTable.MoveInside | src/server/Api/Controllers/AssetsController.cs:129 | A node of the moved subtree hangs from the new parent by the same inner path |
| AssetTable.MoveOutside | src/server/Api/Controllers/AssetsController.cs:129 | A node outside the moved subtree keeps its path |
| AssetTable.MoveKeepsForest | src/server/Api/Controllers/AssetsController.cs:118-129 | A legal move keeps every chain finite, keeps the moved subtree intact, and shifts all its depths by one constant |
| AssetTable.InsertWellFormed | src/server/Api/Controllers/AssetsController.cs:37-45 | Creation checks no parent; the table stays well formed exactly when the parent is absent or an earlier row of the project |
| AssetWalk.SelfParentNeverEnds | src/server/Api/Controllers/AssetsController.cs:37-45 | A row stored with itself as parent: moving another asset of the project under it never gets an answer |
| AssetTable.DeleteWellFormed | infra/postgres/initdb/sql/01-schema.sql:226 | The cascading delete keeps the table well formed and every remaining path |
| AssetTable.DeleteExactly | src/server/Api/Controllers/AssetsController.cs:179-192 | A delete takes away exactly the row and, again and again, every row whose parent goes; the others stay as they are |
| AssetUpsert.UpsertKeeps | src/server/Api/Application/Services/AssetUpsertService.cs:40-75 | On any table one upsert fails exactly for a parent that is no row; else it creates a row exactly when no row has its project, parent and trimmed name, and changes no other row |
| AssetUpsert.UpsertWellFormed | src/server/Api/Application/Services/AssetUpsertService.cs:40-75 | One upsert keeps the table well formed exactly when it created nothing or the parent is absent or a row of the project |
| AssetUpsert.UpsertTreeMerges | src/server/Api/Application/Services/AssetUpsertService.cs:25-38 | Below a parent that is absent or a row of the project, ingesting a tree leaves exactly the name paths the table had and those of the tree below the parent |
| AssetUpsert.UpsertTreeTwice | src/server/Api/Application/Services/AssetUpsertService.cs:19-22 | Ingesting the same tree again creates nothing and changes nothing |
| AssetUpsert.UpsertTree | src/server/Api/Application/Services/AssetUpsertService.cs:25-38 | With any parent: the returned count is the growth of the table and no row is changed; it fails, before any change, exactly when there are candidates and the parent is no row |
| AssetUpsert.UpsertTreeWellFormed | src/server/Api/Application/Services/AssetUpsertService.cs:25-38 | Ingesting keeps the table well formed exactly when nothing is created or the parent is absent or a row of the project |
| AssetUpsert.NamesUnique | src/server/Api/Application/Services/AssetUpsertService.cs:19-22 | In one project no two rows have the same names on their paths |
| AssetUpsert.AssetUpsertService.UpsertOne | src/server/Api/Application/Services/AssetUpsertService.cs:40-75 | Finds or creates, as specified, and fails exactly when the database refuses the parent |
| AssetUpsert.AssetUpsertService.UpsertAll | src/server/Api/Application/Services/AssetUpsertService.cs:25-38 | The recursive loops compute the specified merge and count with any parent, and fail as specified |
| AssetHistory.AlwaysWellFormed | src/server/Api/Controllers/AssetsController.cs:35-192 | Over every sequence of guarded saves the table stays well formed: creations, upserts, updates, deletes, and the saves an ingestion makes node by node, with other requests in between |
| AssetHistory.ProjectsStay | src/server/Api/Controllers/AssetsController.cs:113-145 | No save moves a row to another project, so the parent of an ingested child is still in the project or gone |
| AssetHistory.EnsureFinds | src/server/Api/Controllers/AssetsController.cs:82-95 | The trimmed name is in the table afterwards, in a new row exactly when it was not before; a blank name or an unknown parent changes nothing |
| AssetHistory.PostStores | src/server/Api/Controllers/AssetsController.cs:35-45 | A row is stored as it was sent, or not at all: not exactly for an id in use, an unknown parent, or a name its parent already has |
| AssetHistory.ServeDoes | src/server/Api/Controllers/AssetsController.cs:82-192 | The requests of the history are the update of the controller, the cascading delete and the upserts |
| AssetRace.RacingMoves | src/server/Api/Controllers/AssetsController.cs:118-135 | Two moves that both passed the guard on the same table leave a forest exactly when they are not each into the subtree of the other |
| AssetRace.RaceExists | src/server/Api/Controllers/AssetsController.cs:118-135 | Two roots, each moved under the other at once: both pass the guard, and the table ends with a cycle |
| AssetRace.RaceNeverEnds | src/server/Api/Controllers/AssetsController.cs:148-165 | From then on a move of any other asset of the project under either of the two never gets an answer |
| AssetView.FlattenPlaces | src/dashboard/src/models/assetTree.ts:51-52 | The depth of a flattened entry is the number of its ancestors, in the order of the tree |
| AssetView.FlattenSize | src/dashboard/src/components/projects/ProjectAssets.tsx:24-25 | The flattened size is the count of all nodes and their descendants |
| AssetView.VisibleRowsMeaning | src/dashboard/src/components/projects/ProjectAssets.tsx:18-22 | A row is visible exactly when no proper ancestor is collapsed, in the flattened order |
| AssetView.NothingIsLost | src/dashboard/src/components/projects/ProjectAssets.tsx:18-25 | Visible rows plus the descendant counts of the visible collapsed ones add up to the whole forest |
| AssetView.NothingCollapsed | src/dashboard/src/components/projects/ProjectAssets.tsx:18-22 | With nothing collapsed the rows are the flattened forest |
| AssetView.ToggleMeaning | src/dashboard/src/components/projects/ProjectAssets.tsx:37-42 | Toggling twice changes nothing; toggling an id leaves every row that is not strictly below it as it was, and never shows a row below it both before and after |
| AssetForest.SortSpec | src/dashboard/src/models/assetTree.ts:26-28 | Sorting gives a sorted permutation and keeps the order of names that collate alike |
| AssetForest.ForestCounts | src/dashboard/src/models/assetTree.ts:15-34 | For every flat list, self-parents, cycles and missing parents included, the forest holds each id whose chain ends exactly once, and no other |
| AssetForest.ForestPaths | src/dashboard/src/models/assetTree.ts:15-34 | The tree ancestors of an entry followed by itself are its parent chain |
| AssetForest.ForestFaithful | src/dashboard/src/models/assetTree.ts:15-34 | For every flat list the roots are the assets without a listed parent and the children of each node are exactly the assets that name it, every level sorted |
| AssetForest.SiblingsMeaning | src/dashboard/src/models/assetTree.ts:26-31 | A level is the sorted arrangement of the assets that name the parent, in list order where names collate alike |
| AssetForest.FaithfulUnique | src/dashboard/src/models/assetTree.ts:15-34 | No other forest has these roots and children |
| AssetOrder.ForestOfList | src/dashboard/src/models/assetTree.ts:15-35 | The same of the specified forest, in terms of the list and the names alone |
| AssetOrder.ByIdIsLast | src/dashboard/src/models/assetTree.ts:16-17 | Of several assets with one id the last one counts |
| AssetForest.EntriesAgreeWithPath | src/dashboard/src/models/assetTree.ts:37-52 | For every flattened entry the walked path is its ancestors followed by itself, and depth plus 1 is its length |
| AssetForest.TraceShape | src/dashboard/src/models/assetTree.ts:37-48 | On every input, cyclic ones too, the walk ends, repeats nothing and follows parent links as far as it can |
| AssetForest.TraceIsPath | src/dashboard/src/models/assetTree.ts:37-48 | On a rooted asset the walk is the path from its root |
| AssetForest.TraceStart | src/dashboard/src/models/assetTree.ts:37-48 | The walk starts at an asset without listed parent exactly when the chain is no cycle |
| AssetBuild.BuildAssetTree | src/dashboard/src/models/assetTree.ts:15-34 | For every list the loops build the specified forest: its roots are the assets without a listed parent, the children of a node those that name it, and on every level names collate upwards, with the order of first appearance where they collate alike |
| AssetBuild.NestByParent | src/dashboard/src/models/assetTree.ts:19-24 | The second loop leaves each node in its parent's children, or in the roots, in list order |
| AssetBuild.SortRecursively | src/dashboard/src/models/assetTree.ts:27-31 | The recursion over broken lists ends and sorts every level |
| AssetBuild.AssetPath | src/dashboard/src/models/assetTree.ts:37-48 | The loop computes the walk; an unknown id gives the empty path |
| AssetBuild.ServerForest | src/dashboard/src/models/assetTree.ts:15-34 | From the list of a well-formed server table the dashboard shows every asset of the project exactly once, nothing else, each with its path in the server's table |
| Sampling.Window | src/dashboard/src/services/passwords.ts:43 | The window of accepted draws is a multiple of the bound, more than half of all draws, leaves out fewer than the bound, and is empty exactly for bounds above 2^32 |
| Sampling.RangeLimitExact | src/dashboard/src/services/passwords.ts:43 | For every allowed bound the floor of the double-precision quotient is the exact one, so the limit is |
| Sampling.Unbiased | src/dashboard/src/services/passwords.ts:43-48 | Every result has exactly the same number of accepted draws |
| Sampling.GetSecureRandomInt | src/dashboard/src/services/passwords.ts:33-49 | Whenever some later draw falls into the window: fails exactly outside the allowed bounds, otherwise returns the first draw inside the window, reduced, and consumes exactly the draws up to it |
| Sampling.RedrawEnds | src/dashboard/src/services/passwords.ts:44-47 | However good the source, the redraw loop ends exactly for bounds up to 2^32 |
| Sampling.Draw | src/dashboard/src/services/passwords.ts:44-48 | The first accepted draw exists, is the first below the window's limit, and its reduction is in range |
| Sampling.ModuloCount | src/server/Api/Common/PasswordGenerator.cs:23-24 | Plain modulo: the first 2^32 mod n results have exactly one draw more than the others |
| Sampling.ModuloUnbiased | src/server/Api/Common/PasswordGenerator.cs:23-24 | Plain modulo is unbiased exactly when the keyspace size divides 2^32, and never off by more than one draw |
| Sampling.Generate | src/server/Api/Common/PasswordGenerator.cs:7-28 | Fails exactly for a short keyspace or negative length; otherwise each character is the one its own draw selects |
| Shuffle.ShuffleInPlace | src/dashboard/src/services/passwords.ts:112-116 | The in-place loop computes the shuffle of the choices it draws |
| Shuffle.ShuffledPermutes | src/dashboard/src/services/passwords.ts:112-116 | For any array the multiset is preserved |
| Shuffle.ShuffledInjective | src/dashboard/src/services/passwords.ts:112-116 | On distinct elements different choice vectors give different orders |
| Shuffle.ShuffledOnto | src/dashboard/src/services/passwords.ts:112-116 | Every rearrangement comes from some choice vector, repeated elements or not |
| Shuffle.ShuffleBijection | src/dashboard/src/services/passwords.ts:112-116 | On distinct elements every permutation comes from exactly one choice vector |
| ShuffleCount.ShuffleIsUniform | src/dashboard/src/services/passwords.ts:112-116 | On distinct elements the number of tuples of accepted draws behind each order is the product of the floors of 2^32 / i for the bounds i from 2 on, and n! times that number are all tuples: the shuffle is uniform for up to 2^32 elements |
| ShuffleCount.DrawnTuple | src/dashboard/src/services/passwords.ts:112-116 | With a fair source the choices the loop makes are those of such a tuple, each from a draw of its own |
| Passwords.AvailableMeaning | src/dashboard/src/services/passwords.ts:80-101 | A character is available exactly when its set is enabled and it is not refused as ambiguous |
| Passwords.AvailableOnce | src/dashboard/src/services/passwords.ts:80-101 | Each available character stands in the list once, so no draw favours one |
| Passwords.CharUniform | src/dashboard/src/services/passwords.ts:58-61 | Of the accepted draws equally many select each character of a set |
| Passwords.PicksFollow | src/dashboard/src/services/passwords.ts:58-61 | The i-th character pushed is the one that the i-th accepted draw selects |
| Passwords.RemoveAmbiguousMeaning | src/dashboard/src/services/passwords.ts:51-56 | The filter works character by character: it keeps the unambiguous ones where and as often as they stand and drops the others |
| Passwords.CountPermutes | src/dashboard/src/services/passwords.ts:112-119 | Digit and symbol counts survive any rearrangement |
| Passwords.GeneratePassword | src/dashboard/src/services/passwords.ts:63-119 | Fails exactly when no set is enabled or the guaranteed characters exceed the length; otherwise shuffles what it drew, and the result meets the policy: exact length, only available characters, none ambiguous when asked, enough digits and symbols |
| Passwords.PolicyExact | src/dashboard/src/services/passwords.ts:63-119 | A password meets the policy exactly when some legal draws and some choices of the shuffle give it |
| Passwords.UnsatisfiableMeaning | src/dashboard/src/services/passwords.ts:103-105 | Settings are refused exactly when no password meets them, except that with nothing enabled and length 0 the empty one would |
| Pagination.PageCountExact | src/server/Api/Common/PaginationRequestHandler.cs:22-25 | For every 32-bit total and limit, and every way to round the quotient to a nearest double, the page count is the exact integer ceiling and at least 1; 1 for a negative limit, and the largest 32-bit integer for rows and a limit of 0 |
| Pagination.DividesExists | src/server/Api/Common/PaginationRequestHandler.cs:24 | The division has a result for every 32-bit total and limit, negative and zero limits included |
| Pagination.RoundingKeepsCeiling | src/server/Api/Common/PaginationRequestHandler.cs:24 | Rounding the quotient of 32-bit integers to a nearest double never changes its ceiling |
| Doubles.NearestExists | src/server/Api/Common/PaginationRequestHandler.cs:24 | Every positive number below 2^53 has a nearest double |
| Pagination.PagesCoverRows | src/server/Api/Controllers/AssetsController.cs:69-79 | The announced pages, one after the other, are the whole list |
| Pagination.WholeList | src/server/Api/Controllers/AssetsController.cs:64-67 | A request without a limit is answered with all announced pages of any limit put together, whatever its page |
| Pagination.Defaults | src/server/Api/Common/PaginationRequestHandler.cs:5-13 | A missing, unreadable or too small page is the first, and an unreadable limit is 20 |
| Pagination.PageIsSlice | src/server/Api/Controllers/AssetsController.cs:72-75 | Up to the announced last page no offset overflows and each page is its slice of the list |
| Pagination.PageSizes | src/server/Api/Controllers/AssetsController.cs:72-78 | Every page but the last is full, and the last is empty only for an empty list |
| Pagination.RowOnPage | src/server/Api/Controllers/AssetsController.cs:72-75 | Row i is on page i / limit + 1 at place i mod limit |
| Pagination.PastTheEnd | src/server/Api/Controllers/AssetsController.cs:72-75 | Past the announced pages there is nothing while the offset does not wrap |
| Pagination.OffsetExact | src/server/Api/Common/PaginationRequestHandler.cs:15-20 | The offset is the intended one exactly while the product stays below 2^31 |
| Pagination.RequestFails | src/server/Api/Controllers/AssetsController.cs:72-75 | Every request: it fails exactly if it has a limit and that is negative or the product modulo 2^32 is at least 2^31, and is answered otherwise |
| Pagination.WrappedOffset | src/server/Api/Common/PaginationRequestHandler.cs:15-20 | A page number whose offset wraps to a negative number, so that the request fails instead of coming back empty |
| CvssVector.JoinSplit | src/dashboard/src/components/findings/CvssCalculator.tsx:68-71 | Joining what splitting gives is the identity |
| CvssVector.SplitJoin | src/dashboard/src/components/findings/CvssCalculator.tsx:68-71 | Splitting joined parts that are free of the separator gives them back |
| CvssVector.ParseCvss4Vector | src/dashboard/src/components/findings/CvssCalculator.tsx:65-80 | Each metric takes the value of the last part about it, or its default |
| CvssVector.ReadPartMeaning | src/dashboard/src/components/findings/CvssCalculator.tsx:70-78 | A part gives a metric a value exactly if the first of its pieces between colons is the name, in either case, and the second is the value and not empty |
| CvssVector.LastValueMeaning | src/dashboard/src/components/findings/CvssCalculator.tsx:70-78 | The last matching part decides, and there is no value exactly when no part matches |
| CvssVector.ReadsUnique | src/dashboard/src/components/findings/CvssCalculator.tsx:65-80 | A vector has one reading |
| CvssVector.RoundTrip | src/dashboard/src/components/findings/CvssCalculator.tsx:65-89 | Reading the printed vector gives the values back exactly when each is non-empty and free of both separators |
| CvssVector.ReadIsStable | src/dashboard/src/components/findings/CvssCalculator.tsx:65-89 | For every vector, reading what was printed from its reading gives the same reading |
| CvssVector.UpdateCvss | src/dashboard/src/components/findings/CvssCalculator.tsx:83-95 | Setting one metric and reading back gives the new value and leaves the other ten, exactly when the new value is non-empty and free of both separators |
| CvssVector.DefaultVector | src/dashboard/src/components/findings/CvssCalculator.tsx:83 | The vector used for a finding without one is the print of the defaults |
| FileSize.HumanFileSize | src/dashboard/src/components/ui/FileSizeSpan.tsx:12-32 | Below the threshold the count itself, a whole one as text; else the value in the one right unit, printed with its digits and the name of the unit |
| FileSize.UnitsAre | src/dashboard/src/components/ui/FileSizeSpan.tsx:12-21 | Units are powers of 10^3 or of 2^10, and their names are the prefixes that go with them |
| FileSize.ShownReadsBack | src/dashboard/src/components/ui/FileSizeSpan.tsx:31 | The text is a number, a blank and the unit, and the number reads back as the rounded value with its sign |
| FileSize.CountPrinted | src/dashboard/src/components/ui/FileSizeSpan.tsx:15-17 | The digits printed for a whole count stand for the count itself, with its sign and no superfluous zero |
| FileSize.CountReadsBack | src/dashboard/src/components/ui/FileSizeSpan.tsx:15-17 | The text of a whole count reads back as the count, with no decimals |
| FileSize.ChooseUnit | src/dashboard/src/components/ui/FileSizeSpan.tsx:22-28 | The least unit whose rounded value is below the threshold, or the last, and value times threshold to the power unit + 1 is the input |
| FixedPoint.ToFixedMeaning | src/dashboard/src/components/ui/FileSizeSpan.tsx:31 | The printed number has the asked number of decimals, a digit and no superfluous zero before the point, and stands for the rounded value |
| FixedPoint.TextReadsBack | src/dashboard/src/components/ui/FileSizeSpan.tsx:31 | A printed number reads back as the number it stands for, with a minus sign just when it is negative |
| FixedPoint.RoundedIsNearest | src/dashboard/src/components/ui/FileSizeSpan.tsx:28 | The rounded number is the nearest integer, the larger of two |
| FileSize.PrintedInRange | src/dashboard/src/components/ui/FileSizeSpan.tsx:28-31 | The printed number is at least 1, and below the threshold unless the unit is the last |
| FileSize.UnitAtMost | src/dashboard/src/components/ui/FileSizeSpan.tsx:25-28 | The unit is at most k exactly when the size lies below one cut-off: half a last decimal below the threshold of the next unit |
| FileSize.UnitMonotone | src/dashboard/src/components/ui/FileSizeSpan.tsx:25-28 | A larger size never gets a smaller unit, and equal sizes get the same |

## Left out

- ScanRuns.TaskNeverMovesBack: promises nothing for tasks that a user-made schedule points at, that another client reports on, or that were over with their runnable schedule still stored when the runner restarted; the protocol gives no such promise.
- ScanProgress.TaskCanFinish: a continuation exists; that it is taken would need fairness of the network, the scheduler and the runner's polling.
- ScanRuns.ScanRunNeverMovesBack: requests are served one at a time in the step system; `ScanRace.RacingReports` treats two reports that overlap, and no more than two.
- ScanProtocol.Step: one runner process on the schedule table, lists read as full snapshots one at a time, and ids never reused; the code coordinates no second runner.
- ScanProtocol.ProceedStep: a report that reaches the API only after the runner has given up on it and moved on; reports and deletes take effect before the next action of their execution or not at all.
- Runner.App.ExecuteSchedule: the executor and the upload of its output are one outcome that may be any error; the texts of the two refusals do not quote the line or the id.
- Runner.Scheduler: the inside of gocron; a registered job may start at any time, a cron job any number of times, a one-time job once, and job ids are fresh.
- ScanApi.ScanService.GetAll: the order of the list and the attached command descriptions; everything proved holds for any order.
- ScanApi.ScanService.CreateOne: the recommendation service is a parameter, and the descriptive fields of a run are not kept; the column widths modelled are those of the fields kept, and spaces that PostgreSQL cuts off at the end of a value are kept.
- AssetWalk.AssetsController.UpdateOne: each save is atomic (`AssetRace` treats two that overlap, and no more than two); that the walk ends is a precondition; types, attributes and tags of assets are not kept.
- AssetWalk.AssetsController.CanReparent: that the walk ends is a precondition, with its exact meaning in `AssetWalk.WalkEndsExactly`.
- AssetUpsert.UpsertTree: no other request comes in between (`AssetHistory` lets them); merged attributes, types, sources and times of a row that is found again are not kept.
- AssetBuild.BuildAssetTree: nodes are identified by id and children arrays are a map from ids, so sharing of node objects is not captured; the name comparison is an abstract collation key.
- Sampling.GetSecureRandomInt: that some later draw falls into the window is a precondition, and never met for bounds above 2^32 (`Sampling.RedrawEnds`).
- Passwords.GeneratePassword: lengths and minimum counts stay below JavaScript's array limit of 2^32.
- Pagination.GetMany: filters, and the order of the rows.
- CvssVector.UpdateCvss: the score formula, and keys that only JavaScript's own object prototype knows, which touch none of the eleven metrics.
- FileSize.HumanFileSize: sizes are exact reals; how a count that is not whole and a value from 10^21 on are printed is left to `Number`.
- Parsing of 32-bit integers in query strings: a query value is missing, unparsable, or a number.
- HTTP, JSON, Entity Framework, Redis, RabbitMQ, S3, Keycloak, policies, audit entries and server-sent events.
- The other controllers and services of the API, the command output parsers and their message queues.
- The React components around the modelled functions, and the demo data generator apart from its run status.
