# Homestretch core, modelled in Dafny

Homestretch is a client-side tracker for building a house. A project owns
phases, a phase owns tasks, and a task owns steps. Each step and task has one
of four statuses, and steps, tasks and phases carry an integer `order`. This
project models the rules that sit under the tracker's pages and dialogs:

- the data model and its dependency rules (`types.dfy`);
- the dashboard's aggregation (`dashboard.dfy`), built on exact rounding
  (`percent.dfy`) and whole-day differences (`dates.dfy`):
  - overall progress, as the nested-loop helper and the function it
    computes;
  - the delayed-items list, as the pushing loop and its specification;
  - the key-metric counts and the "Days to Deadline" card;
- a phase card's figures and its priority-ordered status (`phase_summary.dfy`);
- the phases page (`phase_list.dfy`, `phases_page.dfy`):
  - the stable sort by `order`, as a function proved sorted, a permutation,
    stable and unique, plus an in-place insertion sort on an array;
  - add, delete and edit of phases;
  - the page state with its edit modal;
- the add-phase dialog (`add_phase_dialog.dfy`) and the phase form's schema,
  defaults and button label (`phase_form.dfy`);
- the sidebar's active-item rule (`app_sidebar.dfy`);
- the duration-estimator dialog's state machine, with JavaScript `trim`
  (`duration_estimator.dfy`, `text.dfy`);
- the mock data generator (`mock_data.dfy`), with every random draw and clock
  reading as a parameter.

Some things are parameters rather than modelled:

- Times are integer milliseconds. The current time is a parameter `now`.
- ISO date strings are read by an oracle `parse: string -> Option<int>`.
  `None` stands for an Invalid Date, so every comparison on it is false.
- `toISOString` is an oracle `iso: int -> string`.
- `Math.random()` draws are `real` parameters. The bounds lemmas assume they
  lie in [0, 1).
- The AI estimator is a parameter `string -> EstimateOutcome` that returns
  an estimate or fails.

State that the source keeps in React components becomes a `class`:

- `PhasesPageState`, `AddDialogState` and `EstimatorDialogState` each have
  a field per `useState` value.
- Calls of a callback prop (`onPhaseAdded`, `onEstimateGenerated`,
  `onOpenChange`) are appended to a log field, so each method's contract
  can say which calls it makes.
- Every awaited delay or call is treated as one step.

## Model

| member | source | states |
|---|---|---|
| Percent.RoundedPercent | src/app/page.tsx:26 | `Math.round(100·part/whole)` in exact arithmetic: the result r satisfies 2·whole·r ≤ 200·part + whole < 2·whole·(r+1), i.e. nearest integer with halves rounded up |
| Percent.PercentInRange | src/app/page.tsx:26 | a share of at most the whole rounds to a percentage within 0..100 |
| Percent.PercentZero | src/app/page.tsx:26 | the percentage is 0 exactly when the share is below half a percent, so 0 when nothing is completed |
| Percent.PercentFull | src/app/page.tsx:26 | the percentage is 100 exactly when the share is at least 99.5 percent, so 100 when everything is completed |
| Dates.DifferenceInDays | src/app/page.tsx:39 | `differenceInDays` over millisecond instants: the whole days between them, truncated towards zero, bounded by multiples of 86 400 000 ms on both signs |
| Dates.DifferencePositive | src/app/page.tsx:39 | the day difference is positive exactly when at least one full day separates the later instant from the earlier |
| Dates.DifferenceAntisymmetric | src/app/page.tsx:81 | swapping the arguments negates the day difference |
| Text.DecimalRoundTrip | src/components/phases/AddPhaseDialog.tsx:36 | the decimal text of a number, as a template literal renders it, reads back as that number |
| Text.NumberedIdsDistinct | src/lib/mock-data.ts:17 | ids built as a prefix followed by a number are equal only for equal numbers |
| Text.Trim | src/components/ai/DurationEstimatorDialog.tsx:45 | `String.prototype.trim`: both ends stripped of JavaScript white space and line terminators; stated by the three trim lemmas |
| Text.TrimStartFacts | src/components/ai/DurationEstimatorDialog.tsx:45 | trimming the front removes exactly a prefix of JavaScript white space and stops at the first other character |
| Text.TrimEndFacts | src/components/ai/DurationEstimatorDialog.tsx:45 | trimming the back removes exactly a suffix of white space and stops at the last other character |
| Text.TrimFacts | src/components/ai/DurationEstimatorDialog.tsx:45 | `trim()` is empty exactly when the text is all white space; otherwise what is left neither starts nor ends with white space and sits between a white-space prefix and suffix |
| Types.ParseStatus | src/types/index.ts:2 | a status literal that is accepted is the literal of the status it yields |
| Types.ExactlyFourStatuses | src/types/index.ts:2 | the status type has exactly four distinct values, each round-trips through its literal, and only the four literals are accepted |
| Types.StepDependenciesValid | src/types/index.ts:23 | a step's dependency, when present, is the id of another step of the same task |
| Types.TaskDependenciesValid | src/types/index.ts:39 | a task's dependency, when present, is the id of another task of the same phase |
| Types.CountStatusUnion | src/app/page.tsx:79-80 | counting tasks over two disjoint status sets adds up |
| Types.CountEveryStatus | src/app/page.tsx:78 | counting over all four statuses counts every task |
| Types.CountStatusAll | src/components/phases/PhaseListItem.tsx:33 | all tasks are counted exactly when every task's status is in the set |
| Types.CountStatusNone | src/components/phases/PhaseListItem.tsx:34 | no task is counted exactly when no task's status is in the set |
| Types.CountStatusOnlyStatuses | src/components/phases/PhaseListItem.tsx:27 | counts depend on the sequence of task statuses only |
| PhaseSummary.CompletedTasks | src/components/phases/PhaseListItem.tsx:27 | the number of the phase's tasks whose status is completed |
| PhaseSummary.PhaseTaskCount | src/components/phases/PhaseListItem.tsx:28 | the number of the phase's tasks |
| PhaseSummary.Progress | src/components/phases/PhaseListItem.tsx:29 | the rounded completed share, 0 without tasks; stated by `ProgressInRange` |
| PhaseSummary.PendingCount | src/components/phases/PhaseListItem.tsx:97 | the "Pending" figure, total minus completed; stated by `PendingCountIsOpenTasks` |
| PhaseSummary.OverallStatus | src/components/phases/PhaseListItem.tsx:31-37 | the guarded status chain as written; its meaning is stated by the four `Status…Iff` lemmas |
| PhaseSummary.ProgressInRange | src/components/phases/PhaseListItem.tsx:27-29 | card progress is within 0..100, 0 without tasks or without a completed task, and 100 when the phase has tasks and all are completed |
| PhaseSummary.PendingCountIsOpenTasks | src/components/phases/PhaseListItem.tsx:97 | the "Pending" figure, total minus completed, is never negative and equals the number of tasks pending, in progress or delayed |
| PhaseSummary.StatusCompletedIff | src/components/phases/PhaseListItem.tsx:33 | the phase shows "completed" exactly when it has tasks and all are completed |
| PhaseSummary.StatusDelayedIff | src/components/phases/PhaseListItem.tsx:34 | the phase shows "delayed" exactly when some task is delayed, whatever else is in progress |
| PhaseSummary.StatusInProgressIff | src/components/phases/PhaseListItem.tsx:35 | the phase shows "in-progress" exactly when no task is delayed and some task is in progress |
| PhaseSummary.StatusPendingIff | src/components/phases/PhaseListItem.tsx:31-37 | the phase shows "pending" exactly when it has no tasks, or all its tasks are pending or completed and at least one is pending |
| Dashboard.TotalTasks | src/app/page.tsx:78 | the sum of the phases' task counts |
| Dashboard.CountInPhases | src/app/page.tsx:79 | the number of tasks with a status in the set, over all phases, never exceeds the total task count |
| Dashboard.OverallProgress | src/app/page.tsx:14-27 | the specification of the progress loop: 0 without a project, phases or tasks, else the rounded completed share; stated by `OverallProgressFacts` |
| Dashboard.CalculateOverallProgress | src/app/page.tsx:14-27 | the nested counting loops return exactly the overall progress of the project |
| Dashboard.OverallProgressFacts | src/app/page.tsx:14-27 | progress is 0 for no project, no phases or no tasks; otherwise it is within 0..100, 0 when nothing is completed and 100 when every task is completed |
| Dashboard.ProgressOnlyTaskStatuses | src/app/page.tsx:18-26 | two projects whose phases hold tasks with the same statuses have the same progress, whatever their steps, names or dates |
| Dashboard.PastDue | src/app/page.tsx:37-39 | a truthy end date that parses and lies at least one whole day before now |
| Dashboard.Flagged | src/app/page.tsx:35-41 | a task is listed when stored as delayed, or not completed and past due |
| Dashboard.Tag | src/app/page.tsx:36-40 | a stored-delayed task is listed as it is, any other listed task relabelled delayed, with its phase's name |
| Dashboard.TaskDelayedItems | src/app/page.tsx:34-46 | a phase contributes at most one delayed item per task |
| Dashboard.PhaseDelayedItems | src/app/page.tsx:33-48 | the delayed list is never longer than the total task count |
| Dashboard.DelayedItems | src/app/page.tsx:30-50 | the specification of the pushing loop: no items without a project, else the per-phase lists in phase order; stated by the `DelayedItems…` lemmas |
| Dashboard.GetDelayedItems | src/app/page.tsx:30-50 | the pushing loops return exactly the specified delayed list, branch for branch |
| Dashboard.DelayedItemsComplete | src/app/page.tsx:35-41 | every task stored as delayed, or past due and not completed, is listed, tagged with its phase's name |
| Dashboard.DelayedItemsSound | src/app/page.tsx:33-48 | every listed item comes from such a task of the project, tagged with the name of the phase that owns it |
| Dashboard.DelayedItemsFacts | src/app/page.tsx:30-50 | no project gives no items; stored-delayed tasks appear unchanged; past-due open tasks appear re-labelled "delayed"; every item is "delayed" and comes from a task that is not completed; the list is no longer than the task count |
| Dashboard.NoEndDateNeverListed | src/app/page.tsx:37 | a task that is not stored as delayed and has no end date is never listed |
| Dashboard.TaskItemsInTaskOrder | src/app/page.tsx:34 | within a phase, the items of earlier tasks precede those of later tasks |
| Dashboard.DelayedItemsInPhaseOrder | src/app/page.tsx:33 | the items of earlier phases precede those of later phases |
| Dashboard.TopDelayed | src/app/page.tsx:169 | the table shows a prefix of the delayed list of length min(5, length) |
| Dashboard.CompletedTasksCount | src/app/page.tsx:79 | the number of completed tasks over all phases |
| Dashboard.ActivePendingCount | src/app/page.tsx:80 | the number of pending or in-progress tasks over all phases |
| Dashboard.TaskCountsPartition | src/app/page.tsx:78-80 | completed, active/pending and stored-delayed counts sum to the total; completed plus active/pending is at most the total, with equality exactly when no task is stored as delayed |
| Dashboard.DelayedCountPositive | src/app/page.tsx:78-80 | one delayed task makes the delayed count positive |
| Dashboard.DelayedCountZero | src/app/page.tsx:78-80 | with no delayed task the delayed count is zero |
| Dashboard.DaysToDeadline | src/app/page.tsx:81-87 | the deadline card's value, `differenceInDays` when an end date is present and "Overdue" unless it is positive; stated by the next row |
| Dashboard.DaysToDeadlineIff | src/app/page.tsx:81-87 | the card shows a day count exactly when a parseable estimated end date lies at least one whole day ahead; then it shows the positive count in decimal, and "Overdue" otherwise, including with no end date |
| Dashboard.KeyMetrics | src/app/page.tsx:83-88 | four cards in order: total tasks, completed tasks, active/pending tasks and the deadline label |
| PhaseForm.DefaultValues | src/components/phases/PhaseForm.tsx:35-38 | the form's default values as written; stated by `DefaultValuesFacts` |
| PhaseForm.ButtonLabel | src/components/phases/PhaseForm.tsx:75 | the submit button's label as written; stated by `ButtonLabelFacts` |
| PhaseForm.MatchesSchema | src/components/phases/PhaseForm.tsx:19-22 | a name of 2..100 characters and, when present, a description of at most 500 |
| PhaseForm.SchemaIssues | src/components/phases/PhaseForm.tsx:19-22 | the schema's messages in field order; stated by `SchemaIssuesIff` |
| PhaseForm.Submit | src/components/phases/PhaseForm.tsx:43 | `handleSubmit(onSubmit)`: the data goes to the handler only when the schema reports nothing; stated by `SubmitOnlyValid` |
| PhaseForm.SchemaIssuesIff | src/components/phases/PhaseForm.tsx:19-22 | the schema reports nothing exactly when the name has 2..100 characters and a present description at most 500; each message appears exactly when its own rule is broken |
| PhaseForm.SubmitOnlyValid | src/components/phases/PhaseForm.tsx:43 | the submit handler only receives data that matches the schema, and receives each such submission unchanged |
| PhaseForm.DefaultValuesFacts | src/components/phases/PhaseForm.tsx:35-38 | the add form starts from empty strings, which the schema refuses; the edit form starts from the phase's name and its description or "" |
| PhaseForm.ButtonLabelFacts | src/components/phases/PhaseForm.tsx:75 | the label is "Saving..." exactly while loading; otherwise "Save Changes" for initial data with a non-empty id and "Create Phase" without one |
| PhaseList.InsertBounded | src/app/phases/page.tsx:40 | inserting keeps every order at most a bound that the list and the new phase respect |
| PhaseList.InsertFacts | src/app/phases/page.tsx:40 | inserting into a sorted list keeps it sorted and adds exactly the new phase |
| PhaseList.SortByOrder | src/app/phases/page.tsx:34 | the sort by order returns a list in ascending order with exactly the same phases |
| PhaseList.WithOrderAppend | src/app/phases/page.tsx:40 | the phases of one order in a concatenation are those of the first part followed by those of the second |
| PhaseList.InsertKeepsGroups | src/app/phases/page.tsx:40 | inserting a phase keeps each order group as if the phase had been appended |
| PhaseList.SortByOrderStable | src/app/phases/page.tsx:34 | the sort is stable: the phases of each order keep their relative order |
| PhaseList.StableSortUnique | src/app/phases/page.tsx:34 | two sorted arrangements with the same order groups are equal |
| PhaseList.SortByOrderIsTheStableSort | src/app/phases/page.tsx:34 | the sort result is a sorted, stable permutation of its input, and it is the only stable sorted arrangement |
| PhaseList.SortedIsFixed | src/app/phases/page.tsx:34 | a list already in ascending order is left as it is |
| PhaseList.AddPhase | src/app/phases/page.tsx:40 | `[...prevPhases, newPhase].sort(...)`; stated by `AddPhaseFacts` |
| PhaseList.AddPhaseFacts | src/app/phases/page.tsx:40 | adding gives a stable sorted arrangement of the old list plus the new phase, one longer; a new phase whose order is at least every other lands at the end of a sorted list |
| PhaseList.DeletePhase | src/app/phases/page.tsx:49 | deleting never lengthens the list |
| PhaseList.DeletePhaseAppend | src/app/phases/page.tsx:49 | deleting from a concatenation concatenates the results, so relative order is kept |
| PhaseList.DeletePhaseCounts | src/app/phases/page.tsx:49 | every phase with the id is gone and every other phase occurs as often as before |
| PhaseList.DeletePhaseRemovesId | src/app/phases/page.tsx:49 | no phase with the deleted id is left |
| PhaseList.DeletePhaseAbsent | src/app/phases/page.tsx:49 | deleting an id that no phase has changes nothing |
| PhaseList.DeletePhaseSorted | src/app/phases/page.tsx:49 | deleting from a sorted list leaves it sorted |
| PhaseList.Merge | src/app/phases/page.tsx:62 | the spread `{ ...p, ...data }`: the form's name, and its description when present |
| PhaseList.EditPhases | src/app/phases/page.tsx:61-63 | the `map` over the list; stated by `EditPhasesFacts` |
| PhaseList.EditPhasesFacts | src/app/phases/page.tsx:61-63 | editing keeps the length and every id, order and task list. A phase with the id takes the form's name, and its description when the form has one. Other phases are unchanged, sortedness is kept, and editing twice equals editing once |
| PhaseList.NextOrder | src/app/phases/page.tsx:89 | the order offered to the add dialog, `phases.length + 1`; no contract of its own, see the next row |
| PhaseList.NextOrderCanRepeat | src/app/phases/page.tsx:89 | deleting the first phase of a list numbered 1..n (n ≥ 2) leaves n − 1 phases, and the order then offered is n, the order of the phase now last |
| PhasesPage.InsertPastLarger | src/app/phases/page.tsx:34 | shifting a phase past the larger orders at the end of a list is the same as inserting it into the rest |
| PhasesPage.InsertInPlace | src/app/phases/page.tsx:34 | one in-place step moves an element down past larger orders, so the prefix becomes its stable insertion and the rest of the array is untouched |
| PhasesPage.SortInPlace | src/app/phases/page.tsx:34 | the in-place sort leaves the array equal to the stable sort of its old contents |
| PhasesPage.PhasesPageState.constructor | src/app/phases/page.tsx:24-28 | the page starts with no phases, loading, no phase being edited and the modal closed |
| PhasesPage.PhasesPageState.LoadPhases | src/app/phases/page.tsx:31-37 | loading sorts the shared mock array in place, shows it, and ends loading; the list is in order |
| PhasesPage.PhasesPageState.HandlePhaseAdded | src/app/phases/page.tsx:39-41 | the list becomes the sorted list with the new phase and stays in order; nothing else changes |
| PhasesPage.PhasesPageState.HandleEdit | src/app/phases/page.tsx:43-46 | the phase becomes the one being edited and the modal opens; the list is unchanged |
| PhasesPage.PhasesPageState.NextOrder | src/app/phases/page.tsx:89 | the `nextOrder` prop, the page's list length plus one; no contract of its own |
| PhasesPage.PhasesPageState.SetEditModalOpen | src/app/phases/page.tsx:126 | the modal's open flag takes the given value and nothing else changes |
| PhasesPage.PhasesPageState.HandleDelete | src/app/phases/page.tsx:48-54 | the list loses the phases with the id and stays in order; nothing else changes |
| PhasesPage.PhasesPageState.HandleEditSubmit | src/app/phases/page.tsx:56-71 | with no phase being edited nothing changes. Otherwise the phases with the edited phase's id take the form data, and the modal ends closed and not submitting with no phase being edited. The list stays in order |
| PhasesPage.SubmitAddForm | src/app/phases/page.tsx:89 | a refused form leaves the page's list and the dialog (log, open and loading flags) as they were. An accepted one passes one new phase with order length + 1 to the page, which sorts it in, and the dialog ends closed and not loading. Either way the page's loading flag and edit state stay as they were |
| PhasesPage.MockPhasesLoadInOrder | src/app/phases/page.tsx:34 | the generated mock phases are already in order, so loading shows them in generation order |
| AddPhaseDialog.NewPhase | src/components/phases/AddPhaseDialog.tsx:34-39 | the phase built from the form data, the stamped id, the offered order and no tasks; stated by `NewPhaseFacts` |
| AddPhaseDialog.NewPhaseFacts | src/components/phases/AddPhaseDialog.tsx:34-39 | the new phase carries the submitted name and description, the offered order and no tasks; its id is "phase-" and the stamp's digits, which read back as the stamp, so distinct stamps give distinct ids |
| AddPhaseDialog.AddDialogState.constructor | src/components/phases/AddPhaseDialog.tsx:26-27 | the dialog starts closed and not loading |
| AddPhaseDialog.AddDialogState.SetOpen | src/components/phases/AddPhaseDialog.tsx:50 | the open flag takes the given value and nothing else changes |
| AddPhaseDialog.AddDialogState.HandleSubmit | src/components/phases/AddPhaseDialog.tsx:30-47 | one submit passes exactly one new phase to `onPhaseAdded`, and the dialog ends closed and not loading |
| AppSidebar.IsActive | src/components/layout/AppSidebar.tsx:45 | the active test as written; stated by the two `…ActiveIff` lemmas |
| AppSidebar.ButtonClass | src/components/layout/AppSidebar.tsx:47-50 | the button's classes, with the highlight when the repeated active test holds; stated by `ClassIffActive` |
| AppSidebar.RootActiveIff | src/components/layout/AppSidebar.tsx:45 | the root item is active only on "/" itself |
| AppSidebar.NonRootActiveIff | src/components/layout/AppSidebar.tsx:45 | any other item is active exactly on the paths it prefixes, including sub-pages and paths like "/phasesX" |
| AppSidebar.ClassIffActive | src/components/layout/AppSidebar.tsx:45-49 | the highlight classes are applied exactly when the item is active |
| AppSidebar.AtMostOneActive | src/components/layout/AppSidebar.tsx:18-21 | with the two configured items (the constant `NavItems`), no pathname makes both active |
| DurationEstimator.EstimatorDialogState.constructor | src/components/ai/DurationEstimatorDialog.tsx:35-40 | the dialog starts from the initial description, not loading, with no error and no suggestion |
| DurationEstimator.EstimatorDialogState.SetDescription | src/components/ai/DurationEstimatorDialog.tsx:109 | typing replaces the description and nothing else |
| DurationEstimator.EstimatorDialogState.HandleSubmit | src/components/ai/DurationEstimatorDialog.tsx:43-66 | a blank description only sets the blank-description error: no estimator call and loading unchanged. Otherwise the estimator is called once with the exact description; success sets the suggestion with no error, failure sets the failure error with no suggestion, and loading ends false |
| DurationEstimator.EstimatorDialogState.HandleAcceptSuggestion | src/components/ai/DurationEstimatorDialog.tsx:68-77 | with a suggestion, exactly that suggestion goes to `onEstimateGenerated` and `false` to `onOpenChange`; without one nothing happens |
| MockData.ToSelectable | src/lib/mock-data.ts:9-12 | the users mapped to value/label pairs; stated by `ToSelectableFacts` |
| MockData.ToSelectableFacts | src/lib/mock-data.ts:9-12 | the selectable users map each user, in order, to its id as value and its name as label |
| MockData.MockSelectableUsersFacts | src/lib/mock-data.ts:3-12 | the selectable list holds the three mock users in order |
| MockData.IndexOf | src/lib/mock-data.ts:19 | the first position at or after `from` where the separator occurs, with no occurrence before it; `None` exactly when it occurs nowhere there |
| MockData.SecondPiece | src/lib/mock-data.ts:19 | `split(sep)[1]`: the text between the first and second occurrence, or to the end; undefined without an occurrence |
| MockData.MakeStep | src/lib/mock-data.ts:16-27 | the i-th generated step; stated by `MakeStepFields` |
| MockData.MakeStepFields | src/lib/mock-data.ts:16-27 | the i-th step is numbered i+1, takes statuses and users in turn, and depends on step i when i > 0 |
| MockData.CreateSteps | src/lib/mock-data.ts:14-28 | `Array.from({ length: count }, …)` over the step maker; stated by `CreateStepsFacts` |
| MockData.CreateStepsFacts | src/lib/mock-data.ts:14-27 | n steps with ids `taskId-step-1..n` and orders 1..n, statuses and users in turn, each depending on the one before |
| MockData.CreateStepsDistinct | src/lib/mock-data.ts:15 | the generated steps have distinct ids |
| MockData.MakeTask | src/lib/mock-data.ts:32-47 | the i-th generated task with its steps; stated by `MakeTaskFields` |
| MockData.MakeTaskFields | src/lib/mock-data.ts:32-47 | the i-th task follows the same pattern, with its own generated steps |
| MockData.CreateTasks | src/lib/mock-data.ts:30-48 | the same over the task maker; stated by `CreateTasksFacts` |
| MockData.CreateTasksFacts | src/lib/mock-data.ts:30-47 | n tasks with ids `phaseId-task-1..n`, orders 1..n, statuses and users in turn and a chain of dependencies |
| MockData.CreateTasksDistinct | src/lib/mock-data.ts:33 | the generated tasks have distinct ids |
| MockData.CountBounds | src/lib/mock-data.ts:23-59 | with draws in [0, 1): 2..4 steps per task, 3..6 tasks per phase, 1..5 days per step and 1..2 weeks per task |
| MockData.PhaseName | src/lib/mock-data.ts:56 | `phaseNames[i % 5] || "Phase i+1"`; stated by `PhaseNameCycles` |
| MockData.PhaseNameCycles | src/lib/mock-data.ts:56 | the phase name always comes from the five-name table; the fallback is never used |
| MockData.MakePhase | src/lib/mock-data.ts:52-61 | the i-th generated phase with its tasks; stated by `MakePhaseFields` |
| MockData.MakePhaseFields | src/lib/mock-data.ts:52-61 | the i-th phase is numbered i+1, named from the table in turn and owns its generated tasks |
| MockData.CreatePhases | src/lib/mock-data.ts:50-62 | the same over the phase maker; stated by `CreatePhasesFacts` |
| MockData.CreatePhasesFacts | src/lib/mock-data.ts:50-62 | n phases with ids `projectId-phase-1..n`, orders 1..n and cycling names |
| MockData.CreatePhasesDistinct | src/lib/mock-data.ts:53 | the generated phases have distinct ids |
| MockData.GeneratedStepsValid | src/lib/mock-data.ts:26 | every generated step's dependency names another step of the same task |
| MockData.GeneratedTasksValid | src/lib/mock-data.ts:44 | every generated task's dependency names another task of the same phase |
| MockData.GeneratedPhaseWellFormed | src/lib/mock-data.ts:52-61 | every generated phase meets both dependency rules of the data model |
| MockData.MockProject | src/lib/mock-data.ts:64-70 | the mock project literal; stated by `MockProjectFacts` |
| MockData.MockProjectFacts | src/lib/mock-data.ts:64-70 | the mock project has the fixed id and name and four phases numbered 1..4; its dates lie 60 days before and 180 days after now; it meets the dependency rules for any draws |

## Left out

- The AI flow (`src/ai/flows/estimate-duration.ts`) calls a generative model
  over the network through the genkit library. The dialog sees it only as a
  parameter that returns an estimate or fails. The flow declares an output
  schema, so a missing or malformed output surfaces as a failure, which the
  parameter's `Failed` result covers.
- Real dates: `new Date()`, `parseISO`, `format` and date-fns's local-time and
  daylight-saving handling are not modelled. `differenceInDays` is the
  truncated difference of two millisecond instants.
- The `try`/`catch` around the date comparison in the dashboard is not
  modelled: with the parse oracle nothing can throw.
- Floating point: percentages use exact integer rounding, and the real draws
  are exact reals. The two can differ on a tie: with 29 of 200 tasks
  completed, `Math.round(29 / 200 * 100)` is 14, because the double product is
  14.499999999999998, while `RoundedPercent(29, 200)` is 15.
- Randomness and the clock are parameters:
  - `Math.random()` becomes per-item draw records;
  - `Date.now()` becomes `now`, or `stamp` for a new phase's id;
  - the mock generator reads the clock once, where the source reads it once
    per date.
- Concurrency: the `setTimeout` delays and `await`s are treated as single
  atomic steps.
  - The loading flags are set and cleared within one method, so no state
    between the two is observable.
  - A second submit during the delay is not modelled.
- The React effect wiring of the dashboard is not modelled: the first effect
  loads the mock project, and the second computes the figures from it. The
  figures are modelled as functions of the project.
- Rendering: JSX, toasts, console output and styling are not modelled.
  - The Dashboard and Phases page bodies are not modelled. StatusBadge,
    EmptyState, ConfirmDeleteDialog, AppHeader and the layout are not part
    of this model either.
  - The empty state's `document.querySelector` click hack is not modelled.
  - The cancel buttons and the edit dialog's title are not modelled.
- The estimator dialog's `useState` initializer block: it runs once on mount
  and is not a reset on every open, so it is not modelled.
- The estimator dialog's `itemName` is display text only, shown in the
  dialog's description and in the success toast, so it is not modelled.
- Zod and react-hook-form internals are reduced to the validity predicate and
  the defaults. Lengths are counted in characters, not UTF-16 code units.
- The mock data is modelled as the values it would hold. The shared `mockProject`
  object and its aliasing are modelled only where the phases page sorts its
  phase array in place.
- `label` is a Dafny keyword, so the `label` fields of `SelectableUser` and
  of a navigation item are named `userLabel` and `itemLabel`.
- Dates.DifferenceInDays: date-fns's rounding of fractional days through
  local calendar offsets is not modelled; the contract is stated for plain
  millisecond differences, as above.
