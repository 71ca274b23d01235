/** The mock project generator: users, steps, tasks and phases built by
    index, with every random draw and every clock reading passed in. */
module MockData {
  import opened Optional
  import opened Text
  import opened Types
  import Dates

  const MockUsers: seq<User> := [
    User("user-1", "Alice Wonderland", Some("https://placehold.co/100x100.png?text=AW")),
    User("user-2", "Bob The Builder", Some("https://placehold.co/100x100.png?text=BB")),
    User("user-3", "Charlie Brown", Some("https://placehold.co/100x100.png?text=CB"))
  ]

  /** `users.map(user => ({ value: user.id, label: user.name }))`. */
  function ToSelectable(users: seq<User>): seq<SelectableUser> {
    if users == [] then []
    else ToSelectable(users[..|users| - 1]) + [SelectableUser(users[|users| - 1].id, users[|users| - 1].name)]
  }

  /** The selectable users: one entry per user, in order, with the user's id
      as value and name as label. */
  lemma {:induction false} ToSelectableFacts(users: seq<User>)
    ensures |ToSelectable(users)| == |users|
    ensures forall i :: 0 <= i < |users| ==>
              ToSelectable(users)[i].value == users[i].id && ToSelectable(users)[i].userLabel == users[i].name
  {
    if users != [] {
      var init := users[..|users| - 1];
      ToSelectableFacts(init);
      assert forall i :: 0 <= i < |init| ==> init[i] == users[i];
    }
  }

  function MockSelectableUsers(): seq<SelectableUser> {
    ToSelectable(MockUsers)
  }

  /** The statuses handed out in turn to generated steps and tasks. */
  const StatusCycle: seq<ItemStatus> := [Completed, InProgress, Pending, Delayed]

  const StepDescriptionStart: string := "Detailed description for step "
  const StepDescriptionEnd: string := ". This step involves critical path activities."
  const TaskDescriptionStart: string := "Detailed description for task "
  const TaskDescriptionEnd: string := ". This task is crucial for phase completion."
  /** The fixed texts of the generated descriptions. */
  const PhaseDescriptionEnd: string :=
    " of the house building project. It includes all essential activities related to this stage."

  const PhaseNames: seq<string> := ["Foundation", "Framing", "Exterior", "Interior Finishing", "Landscaping"]

  /** `Array.from({ length: n })`: a negative length yields no items. */
  function ArrayLength(n: int): nat {
    if n < 0 then 0 else n
  }

  /** A time value (in milliseconds) made whole as the `Date` constructor
      does: towards zero. */
  function TruncMs(v: real): int {
    if v >= 0.0 then v.Floor else -((-v).Floor)
  }

  /** `sep` occurs in `s` at position `k`. */
  predicate OccursAt(s: string, sep: string, k: nat) {
    k + |sep| <= |s| && s[k..k + |sep|] == sep
  }

  /** `s.indexOf(sep, from)`: the first position at or after `from` where
      `sep` occurs, `None` when it does not occur there. */
  function IndexOf(s: string, sep: string, from: nat): (r: Option<nat>)
    ensures r.Some? ==> from <= r.value && r.value + |sep| <= |s| && OccursAt(s, sep, r.value)
    ensures r.Some? ==> forall k :: from <= k < r.value ==> !OccursAt(s, sep, k)
    ensures r.None? ==> forall k :: from <= k ==> !OccursAt(s, sep, k)
    decreases |s| - from
  {
    if from + |sep| > |s| then None
    else if s[from..from + |sep|] == sep then Some(from)
    else IndexOf(s, sep, from + 1)
  }

  /** `s.split(sep)[1]`: the piece between the first and second occurrence
      of `sep` (or the end), `None` (undefined) when `sep` does not occur. */
  function SecondPiece(s: string, sep: string): Option<string>
    requires sep != ""
  {
    match IndexOf(s, sep, 0)
    case None => None
    case Some(k) =>
      var rest := s[k + |sep|..];
      match IndexOf(rest, sep, 0)
      case None => Some(rest)
      case Some(m) => Some(rest[..m])
  }

  /** A value interpolated into a template literal. */
  function Shown(o: Option<string>): string {
    if o.Some? then o.value else "undefined"
  }

  /** The random numbers drawn for one step: duration, start offset, end offset. */
  datatype StepDraw = StepDraw(duration: real, start: real, end: real)

  /** The random numbers drawn for one task, including its step count and the
      draws of its steps. */
  datatype TaskDraw = TaskDraw(duration: real, start: real, end: real, stepCount: real, steps: nat -> StepDraw)

  /** The random numbers drawn for one phase: its task count and the draws of
      its tasks. */
  datatype PhaseDraw = PhaseDraw(taskCount: real, tasks: nat -> TaskDraw)

  predicate InUnit(r: real) {
    0.0 <= r < 1.0
  }

  /** `new Date(now ± r * days * 24 * 60 * 60 * 1000).toISOString()`. */
  function Before(now: int, r: real, days: int, iso: int -> string): string {
    iso(TruncMs(now as real - r * days as real * Dates.MsPerDay as real))
  }

  function After(now: int, r: real, days: int, iso: int -> string): string {
    iso(TruncMs(now as real + r * days as real * Dates.MsPerDay as real))
  }

  function StepId(taskId: string, k: nat): string {
    taskId + "-step-" + Decimal(k)
  }

  function TaskId(phaseId: string, k: nat): string {
    phaseId + "-task-" + Decimal(k)
  }

  function PhaseId(projectId: string, k: nat): string {
    projectId + "-phase-" + Decimal(k)
  }

  /** The `i`-th (0-based) step of a task. */
  function MakeStep(taskId: string, i: nat, d: StepDraw, now: int, iso: int -> string): Step {
    Step(
      StepId(taskId, i + 1),
      "Step " + Decimal(i + 1),
      Some(StepDescriptionStart + Decimal(i + 1) + " of task "
           + Shown(SecondPiece(taskId, "-task-")) + StepDescriptionEnd),
      StatusCycle[i % |StatusCycle|],
      i + 1,
      Some(MockUsers[i % |MockUsers|].id),
      Some(IntToString((d.duration * 5.0).Floor + 1) + " days"),
      None, None, None,
      Some(Before(now, d.start, 10, iso)),
      Some(After(now, d.end, 10, iso)),
      if i > 0 then Some(StepId(taskId, i)) else None)
  }

  function CreateSteps(taskId: string, count: int, draws: nat -> StepDraw, now: int, iso: int -> string): seq<Step> {
    seq(ArrayLength(count), i requires 0 <= i < ArrayLength(count) => MakeStep(taskId, i, draws(i), now, iso))
  }

  /** `Math.floor(Math.random() * 3) + 2`. */
  function StepCount(d: TaskDraw): int {
    (d.stepCount * 3.0).Floor + 2
  }

  /** The `i`-th (0-based) task of a phase. */
  function MakeTask(phaseId: string, i: nat, d: TaskDraw, now: int, iso: int -> string): Task {
    var taskId := TaskId(phaseId, i + 1);
    Task(
      taskId,
      "Task " + Decimal(i + 1),
      Some(TaskDescriptionStart + Decimal(i + 1) + " in phase "
           + Shown(SecondPiece(phaseId, "-phase-")) + TaskDescriptionEnd),
      StatusCycle[i % |StatusCycle|],
      i + 1,
      Some(MockUsers[i % |MockUsers|].id),
      Some(IntToString((d.duration * 2.0).Floor + 1) + " weeks"),
      None, None, None,
      Some(Before(now, d.start, 20, iso)),
      Some(After(now, d.end, 20, iso)),
      if i > 0 then Some(TaskId(phaseId, i)) else None,
      CreateSteps(taskId, StepCount(d), d.steps, now, iso))
  }

  function CreateTasks(phaseId: string, count: int, draws: nat -> TaskDraw, now: int, iso: int -> string): seq<Task> {
    seq(ArrayLength(count), i requires 0 <= i < ArrayLength(count) => MakeTask(phaseId, i, draws(i), now, iso))
  }

  /** `Math.floor(Math.random() * 4) + 3`. */
  function TaskCount(d: PhaseDraw): int {
    (d.taskCount * 4.0).Floor + 3
  }

  /** `phaseNames[i % phaseNames.length] || `Phase ${i + 1}``. */
  function PhaseName(i: nat): string {
    var n := PhaseNames[i % |PhaseNames|];
    if n != "" then n else "Phase " + Decimal(i + 1)
  }

  /** The `i`-th (0-based) phase of a project. */
  function MakePhase(projectId: string, i: nat, d: PhaseDraw, now: int, iso: int -> string): Phase {
    var phaseId := PhaseId(projectId, i + 1);
    Phase(
      phaseId,
      PhaseName(i),
      Some("This is the " + PhaseName(i) + PhaseDescriptionEnd),
      i + 1,
      CreateTasks(phaseId, TaskCount(d), d.tasks, now, iso))
  }

  function CreatePhases(projectId: string, count: int, draws: nat -> PhaseDraw, now: int, iso: int -> string): seq<Phase> {
    seq(ArrayLength(count), i requires 0 <= i < ArrayLength(count) => MakePhase(projectId, i, draws(i), now, iso))
  }

  /** The mock project, with `now` standing for `Date.now()`. */
  function MockProject(now: int, draws: nat -> PhaseDraw, iso: int -> string): Project {
    Project(
      "project-1",
      "Dream House Build",
      CreatePhases("project-1", 4, draws, now, iso),
      Some(iso(now - 60 * Dates.MsPerDay)),
      Some(iso(now + 180 * Dates.MsPerDay)),
      None)
  }

  // ---------------------------------------------------------------------
  // Properties

  /** The mock users' selectable form lists the three users in order. */
  lemma MockSelectableUsersFacts()
    ensures |MockSelectableUsers()| == 3
    ensures MockSelectableUsers() == [
              SelectableUser("user-1", "Alice Wonderland"),
              SelectableUser("user-2", "Bob The Builder"),
              SelectableUser("user-3", "Charlie Brown")]
  {
    ToSelectableFacts(MockUsers);
  }

  /** The `i`-th step is numbered `i + 1`, takes the statuses and users in
      turn and depends on the step numbered `i` when there is one. */
  lemma MakeStepFields(taskId: string, i: nat, d: StepDraw, now: int, iso: int -> string)
    ensures var st := MakeStep(taskId, i, d, now, iso);
            && st.id == StepId(taskId, i + 1)
            && st.order == i + 1
            && st.status == StatusCycle[i % 4]
            && st.assignedUserId == Some(MockUsers[i % 3].id)
            && st.dependsOnStepId == (if i == 0 then None else Some(StepId(taskId, i)))
  {
  }

  lemma MakeTaskFields(phaseId: string, i: nat, d: TaskDraw, now: int, iso: int -> string)
    ensures var t := MakeTask(phaseId, i, d, now, iso);
            && t.id == TaskId(phaseId, i + 1)
            && t.order == i + 1
            && t.status == StatusCycle[i % 4]
            && t.assignedUserId == Some(MockUsers[i % 3].id)
            && t.dependsOnTaskId == (if i == 0 then None else Some(TaskId(phaseId, i)))
            && t.steps == CreateSteps(t.id, StepCount(d), d.steps, now, iso)
  {
  }

  /** The fields of one element of `CreateSteps`. */
  lemma StepAt(taskId: string, count: int, draws: nat -> StepDraw, now: int, iso: int -> string, i: nat)
    requires i < ArrayLength(count)
    ensures var st := CreateSteps(taskId, count, draws, now, iso)[i];
            && st.id == StepId(taskId, i + 1)
            && st.order == i + 1
            && st.status == StatusCycle[i % 4]
            && st.assignedUserId == Some(MockUsers[i % 3].id)
            && st.dependsOnStepId == (if i == 0 then None else Some(StepId(taskId, i)))
  {
    MakeStepFields(taskId, i, draws(i), now, iso);
  }

  /** `createSteps(taskId, n)` gives n steps numbered 1..n with ids
      `taskId-step-1..n`, statuses and users taken in turn, each depending on
      the one before it. */
  lemma CreateStepsFacts(taskId: string, count: int, draws: nat -> StepDraw, now: int, iso: int -> string)
    ensures var r := CreateSteps(taskId, count, draws, now, iso);
            |r| == ArrayLength(count) &&
            forall i :: 0 <= i < |r| ==>
              && r[i].id == StepId(taskId, i + 1)
              && r[i].order == i + 1
              && r[i].status == StatusCycle[i % 4]
              && r[i].assignedUserId == Some(MockUsers[i % 3].id)
              && r[i].dependsOnStepId == (if i == 0 then None else Some(r[i - 1].id))
  {
    var r := CreateSteps(taskId, count, draws, now, iso);
    forall i | 0 <= i < |r|
      ensures && r[i].id == StepId(taskId, i + 1)
              && r[i].order == i + 1
              && r[i].status == StatusCycle[i % 4]
              && r[i].assignedUserId == Some(MockUsers[i % 3].id)
              && r[i].dependsOnStepId == (if i == 0 then None else Some(StepId(taskId, i)))
    {
      StepAt(taskId, count, draws, now, iso, i);
    }
  }

  /** The generated steps have distinct ids. */
  lemma CreateStepsDistinct(taskId: string, count: int, draws: nat -> StepDraw, now: int, iso: int -> string)
    ensures var r := CreateSteps(taskId, count, draws, now, iso);
            forall i, j :: 0 <= i < j < |r| ==> r[i].id != r[j].id
  {
    var r := CreateSteps(taskId, count, draws, now, iso);
    CreateStepsFacts(taskId, count, draws, now, iso);
    forall i, j | 0 <= i < j < |r| ensures r[i].id != r[j].id {
      NumberedIdsDistinct(taskId + "-step-", i + 1, j + 1);
    }
  }

  /** The fields of one element of `CreateTasks`. */
  lemma TaskAt(phaseId: string, count: int, draws: nat -> TaskDraw, now: int, iso: int -> string, i: nat)
    requires i < ArrayLength(count)
    ensures var t := CreateTasks(phaseId, count, draws, now, iso)[i];
            && t.id == TaskId(phaseId, i + 1)
            && t.order == i + 1
            && t.status == StatusCycle[i % 4]
            && t.assignedUserId == Some(MockUsers[i % 3].id)
            && t.dependsOnTaskId == (if i == 0 then None else Some(TaskId(phaseId, i)))
            && t.steps == CreateSteps(t.id, StepCount(draws(i)), draws(i).steps, now, iso)
  {
    MakeTaskFields(phaseId, i, draws(i), now, iso);
  }

  /** `createTasks(phaseId, n)` gives n tasks numbered 1..n with ids
      `phaseId-task-1..n` in the same pattern as the steps. */
  lemma CreateTasksFacts(phaseId: string, count: int, draws: nat -> TaskDraw, now: int, iso: int -> string)
    ensures var r := CreateTasks(phaseId, count, draws, now, iso);
            |r| == ArrayLength(count) &&
            forall i :: 0 <= i < |r| ==>
              && r[i].id == TaskId(phaseId, i + 1)
              && r[i].order == i + 1
              && r[i].status == StatusCycle[i % 4]
              && r[i].assignedUserId == Some(MockUsers[i % 3].id)
              && r[i].dependsOnTaskId == (if i == 0 then None else Some(r[i - 1].id))
              && r[i].steps == CreateSteps(r[i].id, StepCount(draws(i)), draws(i).steps, now, iso)
  {
    var r := CreateTasks(phaseId, count, draws, now, iso);
    forall i | 0 <= i < |r|
      ensures && r[i].id == TaskId(phaseId, i + 1)
              && r[i].order == i + 1
              && r[i].status == StatusCycle[i % 4]
              && r[i].assignedUserId == Some(MockUsers[i % 3].id)
              && r[i].dependsOnTaskId == (if i == 0 then None else Some(TaskId(phaseId, i)))
              && r[i].steps == CreateSteps(r[i].id, StepCount(draws(i)), draws(i).steps, now, iso)
    {
      TaskAt(phaseId, count, draws, now, iso, i);
    }
  }

  /** The generated tasks have distinct ids. */
  lemma CreateTasksDistinct(phaseId: string, count: int, draws: nat -> TaskDraw, now: int, iso: int -> string)
    ensures var r := CreateTasks(phaseId, count, draws, now, iso);
            forall i, j :: 0 <= i < j < |r| ==> r[i].id != r[j].id
  {
    var r := CreateTasks(phaseId, count, draws, now, iso);
    CreateTasksFacts(phaseId, count, draws, now, iso);
    forall i, j | 0 <= i < j < |r| ensures r[i].id != r[j].id {
      NumberedIdsDistinct(phaseId + "-task-", i + 1, j + 1);
    }
  }

  /** With draws in [0, 1), a task gets 2 to 4 steps, a phase 3 to 6 tasks,
      a step 1 to 5 days and a task 1 to 2 weeks. */
  lemma CountBounds(t: TaskDraw, p: PhaseDraw, s: StepDraw)
    ensures InUnit(t.stepCount) ==> 2 <= StepCount(t) <= 4
    ensures InUnit(p.taskCount) ==> 3 <= TaskCount(p) <= 6
    ensures InUnit(s.duration) ==> 1 <= (s.duration * 5.0).Floor + 1 <= 5
    ensures InUnit(t.duration) ==> 1 <= (t.duration * 2.0).Floor + 1 <= 2
  {
  }

  /** The fallback name is never used: the index always falls in the table. */
  lemma PhaseNameCycles(i: nat)
    ensures PhaseName(i) == PhaseNames[i % 5]
  {
  }

  lemma MakePhaseFields(projectId: string, i: nat, d: PhaseDraw, now: int, iso: int -> string)
    ensures var ph := MakePhase(projectId, i, d, now, iso);
            && ph.id == PhaseId(projectId, i + 1)
            && ph.order == i + 1
            && ph.name == PhaseNames[i % 5]
            && ph.tasks == CreateTasks(ph.id, TaskCount(d), d.tasks, now, iso)
  {
    PhaseNameCycles(i);
  }

  /** `createPhases(projectId, n)` gives n phases numbered 1..n with ids
      `projectId-phase-1..n` and names cycling through the five fixed names. */
  lemma CreatePhasesFacts(projectId: string, count: int, draws: nat -> PhaseDraw, now: int, iso: int -> string)
    ensures var r := CreatePhases(projectId, count, draws, now, iso);
            |r| == ArrayLength(count) &&
            forall i :: 0 <= i < |r| ==>
              && r[i].id == PhaseId(projectId, i + 1)
              && r[i].order == i + 1
              && r[i].name == PhaseNames[i % 5]
              && r[i].tasks == CreateTasks(r[i].id, TaskCount(draws(i)), draws(i).tasks, now, iso)
  {
    var r := CreatePhases(projectId, count, draws, now, iso);
    forall i | 0 <= i < |r|
      ensures && r[i].id == PhaseId(projectId, i + 1)
              && r[i].order == i + 1
              && r[i].name == PhaseNames[i % 5]
              && r[i].tasks == CreateTasks(r[i].id, TaskCount(draws(i)), draws(i).tasks, now, iso)
    {
      MakePhaseFields(projectId, i, draws(i), now, iso);
    }
  }

  /** The generated phases have distinct ids. */
  lemma CreatePhasesDistinct(projectId: string, count: int, draws: nat -> PhaseDraw, now: int, iso: int -> string)
    ensures var r := CreatePhases(projectId, count, draws, now, iso);
            forall i, j :: 0 <= i < j < |r| ==> r[i].id != r[j].id
  {
    var r := CreatePhases(projectId, count, draws, now, iso);
    CreatePhasesFacts(projectId, count, draws, now, iso);
    forall i, j | 0 <= i < j < |r| ensures r[i].id != r[j].id {
      NumberedIdsDistinct(projectId + "-phase-", i + 1, j + 1);
    }
  }

  /** Every generated step depends on another step of its own task. */
  lemma {:induction false} GeneratedStepsValid(taskId: string, count: int, draws: nat -> StepDraw, now: int, iso: int -> string, t: Task)
    requires t.steps == CreateSteps(taskId, count, draws, now, iso)
    ensures StepDependenciesValid(t)
  {
    CreateStepsFacts(taskId, count, draws, now, iso);
    CreateStepsDistinct(taskId, count, draws, now, iso);
    forall i | 0 <= i < |t.steps|
      ensures DependencyWithin(Ids(t.steps, IdOfStep), t.steps[i].id, t.steps[i].dependsOnStepId)
    {
      if i > 0 {
        assert Ids(t.steps, IdOfStep)[i - 1] == t.steps[i - 1].id;
        assert t.steps[i].dependsOnStepId == Some(t.steps[i - 1].id);
        assert t.steps[i - 1].id != t.steps[i].id;
      }
    }
  }

  /** Every generated task depends on another task of its own phase. */
  lemma {:induction false} GeneratedTasksValid(phaseId: string, count: int, draws: nat -> TaskDraw, now: int, iso: int -> string, ph: Phase)
    requires ph.tasks == CreateTasks(phaseId, count, draws, now, iso)
    ensures TaskDependenciesValid(ph)
  {
    CreateTasksFacts(phaseId, count, draws, now, iso);
    CreateTasksDistinct(phaseId, count, draws, now, iso);
    forall j | 0 <= j < |ph.tasks|
      ensures DependencyWithin(Ids(ph.tasks, IdOfTask), ph.tasks[j].id, ph.tasks[j].dependsOnTaskId)
    {
      if j > 0 {
        assert Ids(ph.tasks, IdOfTask)[j - 1] == ph.tasks[j - 1].id;
        assert ph.tasks[j].dependsOnTaskId == Some(ph.tasks[j - 1].id);
        assert ph.tasks[j - 1].id != ph.tasks[j].id;
      }
    }
  }

  /** Every generated phase meets the dependency rules of the data model. */
  lemma {:induction false} GeneratedPhaseWellFormed(projectId: string, i: nat, d: PhaseDraw, now: int, iso: int -> string)
    ensures WellFormedPhase(MakePhase(projectId, i, d, now, iso))
  {
    var ph := MakePhase(projectId, i, d, now, iso);
    MakePhaseFields(projectId, i, d, now, iso);
    GeneratedTasksValid(ph.id, TaskCount(d), d.tasks, now, iso, ph);
    CreateTasksFacts(ph.id, TaskCount(d), d.tasks, now, iso);
    forall j | 0 <= j < |ph.tasks| ensures StepDependenciesValid(ph.tasks[j]) {
      GeneratedStepsValid(ph.tasks[j].id, StepCount(d.tasks(j)), d.tasks(j).steps, now, iso, ph.tasks[j]);
    }
  }

  /** The mock project has four phases numbered 1..4, its dates lie 60 days
      before and 180 days after `now`, and it meets the dependency rules of
      the data model whatever the draws. */
  lemma MockProjectFacts(now: int, draws: nat -> PhaseDraw, iso: int -> string)
    ensures var p := MockProject(now, draws, iso);
            && p.id == "project-1" && p.name == "Dream House Build"
            && |p.phases| == 4
            && (forall i :: 0 <= i < 4 ==> p.phases[i].order == i + 1)
            && p.projectStartDate == Some(iso(now - 60 * Dates.MsPerDay))
            && p.projectEstimatedEndDate == Some(iso(now + 180 * Dates.MsPerDay))
            && p.projectActualEndDate.None?
    ensures WellFormedProject(MockProject(now, draws, iso))
  {
    var p := MockProject(now, draws, iso);
    CreatePhasesFacts("project-1", 4, draws, now, iso);
    forall i | 0 <= i < |p.phases| ensures WellFormedPhase(p.phases[i]) {
      GeneratedPhaseWellFormed("project-1", i, draws(i), now, iso);
    }
  }
}
