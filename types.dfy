/** The tracker's data model: a project owns its phases, a phase its tasks and
    a task its steps; steps, tasks and phases carry an integer `order`, and
    steps and tasks carry one of four statuses. Dates are ISO strings. */
module Types {
  import opened Optional

  /** The four statuses a step or task can have. */
  datatype ItemStatus = Pending | InProgress | Completed | Delayed

  /** Every status, in declaration order of the string union. */
  const AllStatuses: seq<ItemStatus> := [Pending, InProgress, Completed, Delayed]

  /** The string literal that stands for a status in the data. */
  function StatusLabel(s: ItemStatus): string {
    match s
    case Pending => "pending"
    case InProgress => "in-progress"
    case Completed => "completed"
    case Delayed => "delayed"
  }

  /** Reads a status literal; anything outside the union is rejected. */
  function ParseStatus(text: string): (r: Option<ItemStatus>)
    ensures r.Some? ==> StatusLabel(r.value) == text
  {
    if text == "pending" then Some(Pending)
    else if text == "in-progress" then Some(InProgress)
    else if text == "completed" then Some(Completed)
    else if text == "delayed" then Some(Delayed)
    else None
  }

  /** The status type has exactly four values, each with its own literal,
      and the literals are the only strings that parse. */
  lemma {:induction false} ExactlyFourStatuses(text: string)
    ensures |AllStatuses| == 4
    ensures forall i, j :: 0 <= i < j < 4 ==> AllStatuses[i] != AllStatuses[j]
    ensures forall s: ItemStatus :: s in AllStatuses && ParseStatus(StatusLabel(s)) == Some(s)
    ensures ParseStatus(text).Some? <==> exists s: ItemStatus :: StatusLabel(s) == text
  {
    forall s: ItemStatus ensures s in AllStatuses && ParseStatus(StatusLabel(s)) == Some(s) {
      match s
      case Pending => assert AllStatuses[0] == s;
      case InProgress => assert AllStatuses[1] == s;
      case Completed => assert AllStatuses[2] == s;
      case Delayed => assert AllStatuses[3] == s;
    }
    if ParseStatus(text).None? {
      forall s: ItemStatus ensures StatusLabel(s) != text {
        assert ParseStatus(StatusLabel(s)).Some?;
      }
    }
  }

  datatype User = User(id: string, name: string, avatarUrl: Option<string>)

  /** A user as offered in a selection list (`label` is a Dafny keyword, so that field is `userLabel`). */
  datatype SelectableUser = SelectableUser(value: string, userLabel: string)

  datatype Step = Step(
    id: string,
    name: string,
    description: Option<string>,
    status: ItemStatus,
    order: int,
    assignedUserId: Option<string>,
    estimatedDuration: Option<string>,
    aiSuggestedDuration: Option<string>,
    aiReasoning: Option<string>,
    actualDuration: Option<string>,
    startDate: Option<string>,
    endDate: Option<string>,
    dependsOnStepId: Option<string>)

  datatype Task = Task(
    id: string,
    name: string,
    description: Option<string>,
    status: ItemStatus,
    order: int,
    assignedUserId: Option<string>,
    estimatedDuration: Option<string>,
    aiSuggestedDuration: Option<string>,
    aiReasoning: Option<string>,
    actualDuration: Option<string>,
    startDate: Option<string>,
    endDate: Option<string>,
    dependsOnTaskId: Option<string>,
    steps: seq<Step>)

  datatype Phase = Phase(
    id: string,
    name: string,
    description: Option<string>,
    order: int,
    tasks: seq<Task>)

  datatype Project = Project(
    id: string,
    name: string,
    phases: seq<Phase>,
    projectStartDate: Option<string>,
    projectEstimatedEndDate: Option<string>,
    projectActualEndDate: Option<string>)

  /** The ids of a list of steps or tasks, in order. */
  function Ids<T>(xs: seq<T>, id: T -> string): (ids: seq<string>)
    ensures |ids| == |xs|
    ensures forall i :: 0 <= i < |xs| ==> ids[i] == id(xs[i])
  {
    seq(|xs|, i requires 0 <= i < |xs| => id(xs[i]))
  }

  function IdOfStep(st: Step): string {
    st.id
  }

  function IdOfTask(t: Task): string {
    t.id
  }

  /** A dependency, when present, names one of `ids` other than the item's own. */
  predicate DependencyWithin(ids: seq<string>, own: string, dependsOn: Option<string>) {
    dependsOn.Some? ==> dependsOn.value in ids && dependsOn.value != own
  }

  /** Every step's dependency names another step of the same task. */
  predicate StepDependenciesValid(t: Task) {
    forall i :: 0 <= i < |t.steps| ==>
      DependencyWithin(Ids(t.steps, IdOfStep), t.steps[i].id, t.steps[i].dependsOnStepId)
  }

  /** Every task's dependency names another task of the same phase. */
  predicate TaskDependenciesValid(ph: Phase) {
    forall i :: 0 <= i < |ph.tasks| ==>
      DependencyWithin(Ids(ph.tasks, IdOfTask), ph.tasks[i].id, ph.tasks[i].dependsOnTaskId)
  }

  predicate WellFormedPhase(ph: Phase) {
    && TaskDependenciesValid(ph)
    && forall i :: 0 <= i < |ph.tasks| ==> StepDependenciesValid(ph.tasks[i])
  }

  /** The dependency comments of the data model hold throughout a project. */
  predicate WellFormedProject(p: Project) {
    forall i :: 0 <= i < |p.phases| ==> WellFormedPhase(p.phases[i])
  }

  /** The number of tasks whose status is one of `sts`. */
  function CountStatus(tasks: seq<Task>, sts: set<ItemStatus>): (n: nat)
    ensures n <= |tasks|
  {
    if tasks == [] then 0
    else CountStatus(tasks[..|tasks| - 1], sts) + (if tasks[|tasks| - 1].status in sts then 1 else 0)
  }

  /** Counting over two disjoint status sets adds up. */
  lemma {:induction false} CountStatusUnion(tasks: seq<Task>, a: set<ItemStatus>, b: set<ItemStatus>)
    requires a !! b
    ensures CountStatus(tasks, a + b) == CountStatus(tasks, a) + CountStatus(tasks, b)
  {
    if tasks != [] {
      CountStatusUnion(tasks[..|tasks| - 1], a, b);
    }
  }

  /** Counting over every status counts every task. */
  lemma {:induction false} CountEveryStatus(tasks: seq<Task>)
    ensures CountStatus(tasks, {Pending, InProgress, Completed, Delayed}) == |tasks|
  {
    if tasks != [] {
      CountEveryStatus(tasks[..|tasks| - 1]);
      var st := tasks[|tasks| - 1].status;
      assert st in {Pending, InProgress, Completed, Delayed} by {
        match st
        case Pending =>
        case InProgress =>
        case Completed =>
        case Delayed =>
      }
    }
  }

  /** All tasks are counted exactly when every task has a status in `sts`. */
  lemma {:induction false} CountStatusAll(tasks: seq<Task>, sts: set<ItemStatus>)
    ensures CountStatus(tasks, sts) == |tasks| <==> forall i :: 0 <= i < |tasks| ==> tasks[i].status in sts
  {
    if tasks != [] {
      var init := tasks[..|tasks| - 1];
      CountStatusAll(init, sts);
      assert forall i :: 0 <= i < |init| ==> init[i] == tasks[i];
    }
  }

  /** No task is counted exactly when no task has a status in `sts`. */
  lemma {:induction false} CountStatusNone(tasks: seq<Task>, sts: set<ItemStatus>)
    ensures CountStatus(tasks, sts) == 0 <==> forall i :: 0 <= i < |tasks| ==> tasks[i].status !in sts
  {
    if tasks != [] {
      var init := tasks[..|tasks| - 1];
      CountStatusNone(init, sts);
      assert forall i :: 0 <= i < |init| ==> init[i] == tasks[i];
    }
  }

  /** The task statuses of a list, which is all that the counts look at. */
  function Statuses(tasks: seq<Task>): (r: seq<ItemStatus>)
    ensures |r| == |tasks|
    ensures forall i :: 0 <= i < |tasks| ==> r[i] == tasks[i].status
  {
    seq(|tasks|, i requires 0 <= i < |tasks| => tasks[i].status)
  }

  /** Counts depend on the task statuses only, never on names, dates or steps. */
  lemma {:induction false} CountStatusOnlyStatuses(tasks: seq<Task>, others: seq<Task>, sts: set<ItemStatus>)
    requires Statuses(tasks) == Statuses(others)
    ensures CountStatus(tasks, sts) == CountStatus(others, sts)
  {
    if tasks != [] {
      var n := |tasks| - 1;
      assert Statuses(tasks[..n]) == Statuses(others[..n]) by {
        assert forall i :: 0 <= i < n ==> Statuses(tasks)[i] == Statuses(others)[i];
      }
      assert tasks[n].status == Statuses(tasks)[n] == Statuses(others)[n] == others[n].status;
      CountStatusOnlyStatuses(tasks[..n], others[..n], sts);
    }
  }
}
