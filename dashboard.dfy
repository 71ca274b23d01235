/** The dashboard's aggregation over a project: overall progress, the list of
    delayed tasks, the key-metric counts and the deadline card. The current
    time is a parameter `now` (milliseconds) and ISO strings are read by the
    oracle `parse`, which yields no instant for an unparseable string. */
module Dashboard {
  import opened Optional
  import opened Types
  import opened Text
  import opened Dates
  import Percent

  /** Tasks across all phases, as `phases.reduce((sum, phase) => sum + phase.tasks.length, 0)`. */
  function TotalTasks(phases: seq<Phase>): nat {
    if phases == [] then 0 else TotalTasks(phases[..|phases| - 1]) + |phases[|phases| - 1].tasks|
  }

  /** Tasks across all phases whose status is one of `sts`. */
  function CountInPhases(phases: seq<Phase>, sts: set<ItemStatus>): (n: nat)
    ensures n <= TotalTasks(phases)
  {
    if phases == [] then 0
    else CountInPhases(phases[..|phases| - 1], sts) + CountStatus(phases[|phases| - 1].tasks, sts)
  }

  /** The overall progress percentage of a possibly absent project. */
  function OverallProgress(project: Option<Project>): nat {
    match project
    case None => 0
    case Some(p) =>
      if |p.phases| == 0 then 0
      else
        var total := TotalTasks(p.phases);
        if total == 0 then 0 else Percent.RoundedPercent(CountInPhases(p.phases, {Completed}), total)
  }

  /** The progress helper: nested loops that add up the tasks and the
      completed tasks of every phase, then round the share. */
  method CalculateOverallProgress(project: Option<Project>) returns (r: nat)
    ensures r == OverallProgress(project)
  {
    if project.None? || |project.value.phases| == 0 {
      return 0;
    }
    var phases := project.value.phases;
    var totalTasks := 0;
    var completedTasks := 0;
    var i := 0;
    while i < |phases|
      invariant 0 <= i <= |phases|
      invariant totalTasks == TotalTasks(phases[..i])
      invariant completedTasks == CountInPhases(phases[..i], {Completed})
    {
      var tasks := phases[i].tasks;
      totalTasks := totalTasks + |tasks|;
      var j := 0;
      while j < |tasks|
        invariant 0 <= j <= |tasks|
        invariant completedTasks == CountInPhases(phases[..i], {Completed}) + CountStatus(tasks[..j], {Completed})
      {
        if tasks[j].status == Completed {
          completedTasks := completedTasks + 1;
        }
        assert tasks[..j + 1][..j] == tasks[..j];
        j := j + 1;
      }
      assert tasks[..j] == tasks;
      assert phases[..i + 1][..i] == phases[..i];
      i := i + 1;
    }
    assert phases[..i] == phases;
    r := if totalTasks == 0 then 0 else Percent.RoundedPercent(completedTasks, totalTasks);
  }

  /** Every task of every phase has status `st`. */
  predicate AllTasksHave(phases: seq<Phase>, st: ItemStatus) {
    forall i, j :: 0 <= i < |phases| && 0 <= j < |phases[i].tasks| ==> phases[i].tasks[j].status == st
  }

  lemma {:induction false} CountInPhasesAll(phases: seq<Phase>, st: ItemStatus)
    requires AllTasksHave(phases, st)
    ensures CountInPhases(phases, {st}) == TotalTasks(phases)
  {
    if phases != [] {
      var n := |phases| - 1;
      assert AllTasksHave(phases[..n], st) by {
        forall i, j | 0 <= i < n && 0 <= j < |phases[..n][i].tasks|
          ensures phases[..n][i].tasks[j].status == st
        {
          assert phases[..n][i] == phases[i];
        }
      }
      CountInPhasesAll(phases[..n], st);
      CountStatusAll(phases[n].tasks, {st});
    }
  }

  /** Progress is 0 for an absent project, for one without phases and for one
      without tasks; otherwise it is the rounded share of completed tasks,
      between 0 and 100, 0 when nothing is completed and 100 when all is. */
  lemma OverallProgressFacts(project: Option<Project>)
    ensures project.None? ==> OverallProgress(project) == 0
    ensures project.Some? && TotalTasks(project.value.phases) == 0 ==> OverallProgress(project) == 0
    ensures 0 <= OverallProgress(project) <= 100
    ensures project.Some? && CountInPhases(project.value.phases, {Completed}) == 0 ==> OverallProgress(project) == 0
    ensures project.Some? && TotalTasks(project.value.phases) > 0 && AllTasksHave(project.value.phases, Completed)
            ==> OverallProgress(project) == 100
  {
    if project.Some? {
      var phases := project.value.phases;
      if |phases| == 0 {
        assert TotalTasks(phases) == 0;
      }
      if TotalTasks(phases) > 0 {
        var c := CountInPhases(phases, {Completed});
        Percent.PercentInRange(c, TotalTasks(phases));
        Percent.PercentZero(c, TotalTasks(phases));
        if AllTasksHave(phases, Completed) {
          CountInPhasesAll(phases, Completed);
          Percent.PercentFull(c, TotalTasks(phases));
        }
      }
    }
  }

  /** The task statuses of each phase. */
  function StatusProfile(phases: seq<Phase>): (r: seq<seq<ItemStatus>>)
    ensures |r| == |phases|
    ensures forall i :: 0 <= i < |phases| ==> r[i] == Statuses(phases[i].tasks)
  {
    seq(|phases|, i requires 0 <= i < |phases| => Statuses(phases[i].tasks))
  }

  lemma {:induction false} CountsOnlyStatuses(phases: seq<Phase>, others: seq<Phase>, sts: set<ItemStatus>)
    requires StatusProfile(phases) == StatusProfile(others)
    ensures TotalTasks(phases) == TotalTasks(others)
    ensures CountInPhases(phases, sts) == CountInPhases(others, sts)
  {
    if phases != [] {
      var n := |phases| - 1;
      assert StatusProfile(phases[..n]) == StatusProfile(others[..n]) by {
        assert forall i :: 0 <= i < n ==> StatusProfile(phases)[i] == StatusProfile(others)[i];
      }
      CountsOnlyStatuses(phases[..n], others[..n], sts);
      assert Statuses(phases[n].tasks) == StatusProfile(phases)[n] == StatusProfile(others)[n] == Statuses(others[n].tasks);
      CountStatusOnlyStatuses(phases[n].tasks, others[n].tasks, sts);
    }
  }

  /** Only the statuses of tasks enter the overall progress: two projects
      whose phases hold tasks with the same statuses, whatever their steps,
      names or dates, have the same progress. */
  lemma ProgressOnlyTaskStatuses(p: Project, q: Project)
    requires StatusProfile(p.phases) == StatusProfile(q.phases)
    ensures OverallProgress(Some(p)) == OverallProgress(Some(q))
  {
    CountsOnlyStatuses(p.phases, q.phases, {Completed});
  }

  // ---------------------------------------------------------------------
  // Delayed items

  /** A task as listed among delayed items, tagged with its phase's name. */
  datatype DelayedItem = DelayedItem(task: Task, phaseName: string)

  /** Past due: the task has a non-empty end date that parses, and at least
      one whole day separates it from `now`. */
  predicate PastDue(t: Task, now: int, parse: string -> Option<int>) {
    && Truthy(t.endDate)
    && match parse(t.endDate.value)
       case None => false
       case Some(end) => DifferenceInDays(now, end) > 0
  }

  /** The tasks the dashboard lists: stored as delayed, or past due and not completed. */
  predicate Flagged(t: Task, now: int, parse: string -> Option<int>) {
    t.status == Delayed || (t.status != Completed && PastDue(t, now, parse))
  }

  /** How a task is listed: an implicitly delayed one is re-labelled. */
  function Tag(t: Task, phaseName: string): DelayedItem {
    if t.status == Delayed then DelayedItem(t, phaseName)
    else DelayedItem(t.(status := Delayed), phaseName)
  }

  function TaskDelayedItems(tasks: seq<Task>, phaseName: string, now: int, parse: string -> Option<int>): (r: seq<DelayedItem>)
    ensures |r| <= |tasks|
  {
    if tasks == [] then []
    else
      var t := tasks[|tasks| - 1];
      TaskDelayedItems(tasks[..|tasks| - 1], phaseName, now, parse)
        + (if Flagged(t, now, parse) then [Tag(t, phaseName)] else [])
  }

  function PhaseDelayedItems(phases: seq<Phase>, now: int, parse: string -> Option<int>): (r: seq<DelayedItem>)
    ensures |r| <= TotalTasks(phases)
  {
    if phases == [] then []
    else
      var ph := phases[|phases| - 1];
      PhaseDelayedItems(phases[..|phases| - 1], now, parse) + TaskDelayedItems(ph.tasks, ph.name, now, parse)
  }

  /** One more task extends the task list by that task's entry, if any. */
  lemma TaskItemsSnoc(tasks: seq<Task>, j: nat, phaseName: string, now: int, parse: string -> Option<int>)
    requires j < |tasks|
    ensures TaskDelayedItems(tasks[..j + 1], phaseName, now, parse)
            == TaskDelayedItems(tasks[..j], phaseName, now, parse)
               + (if Flagged(tasks[j], now, parse) then [Tag(tasks[j], phaseName)] else [])
  {
    assert tasks[..j + 1][..j] == tasks[..j];
  }

  /** One more phase extends the list by that phase's task entries. */
  lemma PhaseItemsSnoc(phases: seq<Phase>, i: nat, now: int, parse: string -> Option<int>)
    requires i < |phases|
    ensures PhaseDelayedItems(phases[..i + 1], now, parse)
            == PhaseDelayedItems(phases[..i], now, parse) + TaskDelayedItems(phases[i].tasks, phases[i].name, now, parse)
  {
    assert phases[..i + 1][..i] == phases[..i];
  }

  /** The delayed items of a possibly absent project. */
  function DelayedItems(project: Option<Project>, now: int, parse: string -> Option<int>): seq<DelayedItem> {
    match project
    case None => []
    case Some(p) => PhaseDelayedItems(p.phases, now, parse)
  }

  /** The delayed-items helper: nested loops pushing onto a local list. */
  method GetDelayedItems(project: Option<Project>, now: int, parse: string -> Option<int>)
    returns (delayed: seq<DelayedItem>)
    ensures delayed == DelayedItems(project, now, parse)
  {
    if project.None? {
      return [];
    }
    var phases := project.value.phases;
    delayed := [];
    var i := 0;
    while i < |phases|
      invariant 0 <= i <= |phases|
      invariant delayed == PhaseDelayedItems(phases[..i], now, parse)
    {
      var phase := phases[i];
      var j := 0;
      while j < |phase.tasks|
        invariant 0 <= j <= |phase.tasks|
        invariant delayed == PhaseDelayedItems(phases[..i], now, parse)
                             + TaskDelayedItems(phase.tasks[..j], phase.name, now, parse)
      {
        var task := phase.tasks[j];
        TaskItemsSnoc(phase.tasks, j, phase.name, now, parse);
        if task.status == Delayed {
          delayed := delayed + [DelayedItem(task, phase.name)];
        } else if task.status != Completed && Truthy(task.endDate) {
          var end := parse(task.endDate.value);
          if end.Some? && DifferenceInDays(now, end.value) > 0 {
            delayed := delayed + [DelayedItem(task.(status := Delayed), phase.name)];
          }
        }
        j := j + 1;
      }
      assert phase.tasks[..j] == phase.tasks;
      PhaseItemsSnoc(phases, i, now, parse);
      i := i + 1;
    }
    assert phases[..i] == phases;
  }

  /** A flagged task at a position of the project. */
  predicate FlaggedAt(phases: seq<Phase>, i: int, j: int, now: int, parse: string -> Option<int>) {
    0 <= i < |phases| && 0 <= j < |phases[i].tasks| && Flagged(phases[i].tasks[j], now, parse)
  }

  lemma {:induction false} TaskItemsComplete(tasks: seq<Task>, name: string, now: int, parse: string -> Option<int>, j: int)
    requires 0 <= j < |tasks| && Flagged(tasks[j], now, parse)
    ensures Tag(tasks[j], name) in TaskDelayedItems(tasks, name, now, parse)
  {
    var n := |tasks| - 1;
    if j < n {
      TaskItemsComplete(tasks[..n], name, now, parse, j);
    }
  }

  lemma {:induction false} TaskItemsSound(tasks: seq<Task>, name: string, now: int, parse: string -> Option<int>, item: DelayedItem)
    requires item in TaskDelayedItems(tasks, name, now, parse)
    ensures exists j :: 0 <= j < |tasks| && Flagged(tasks[j], now, parse) && item == Tag(tasks[j], name)
  {
    var n := |tasks| - 1;
    if item in TaskDelayedItems(tasks[..n], name, now, parse) {
      TaskItemsSound(tasks[..n], name, now, parse, item);
      var j :| 0 <= j < n && Flagged(tasks[..n][j], now, parse) && item == Tag(tasks[..n][j], name);
      assert tasks[..n][j] == tasks[j];
    } else {
      assert Flagged(tasks[n], now, parse) && item == Tag(tasks[n], name);
    }
  }

  /** Every flagged task is listed, tagged with its phase's name. */
  lemma {:induction false} DelayedItemsComplete(phases: seq<Phase>, now: int, parse: string -> Option<int>, i: int, j: int)
    requires FlaggedAt(phases, i, j, now, parse)
    ensures Tag(phases[i].tasks[j], phases[i].name) in PhaseDelayedItems(phases, now, parse)
  {
    var n := |phases| - 1;
    if i < n {
      assert phases[..n][i] == phases[i];
      DelayedItemsComplete(phases[..n], now, parse, i, j);
    } else {
      TaskItemsComplete(phases[n].tasks, phases[n].name, now, parse, j);
    }
  }

  /** Every listed item is a flagged task of the project, tagged with the
      name of the phase that owns it. */
  lemma {:induction false} DelayedItemsSound(phases: seq<Phase>, now: int, parse: string -> Option<int>, item: DelayedItem)
    requires item in PhaseDelayedItems(phases, now, parse)
    ensures exists i, j :: FlaggedAt(phases, i, j, now, parse) && item == Tag(phases[i].tasks[j], phases[i].name)
  {
    var n := |phases| - 1;
    if item in PhaseDelayedItems(phases[..n], now, parse) {
      DelayedItemsSound(phases[..n], now, parse, item);
      var i, j :| FlaggedAt(phases[..n], i, j, now, parse) && item == Tag(phases[..n][i].tasks[j], phases[..n][i].name);
      assert phases[..n][i] == phases[i];
      assert FlaggedAt(phases, i, j, now, parse);
    } else {
      TaskItemsSound(phases[n].tasks, phases[n].name, now, parse, item);
      var j :| 0 <= j < |phases[n].tasks| && Flagged(phases[n].tasks[j], now, parse)
               && item == Tag(phases[n].tasks[j], phases[n].name);
      assert FlaggedAt(phases, n, j, now, parse);
    }
  }

  /** What the delayed-items list promises:
      - an absent project has none;
      - every task stored as delayed is listed as it is;
      - a task neither delayed nor completed is listed, re-labelled, when its
        end date is past due;
      - every item is "delayed", comes from a task that is not completed, and
        a listed task that was not stored as delayed has a past-due end date;
      - there are never more items than tasks. */
  lemma DelayedItemsFacts(p: Project, now: int, parse: string -> Option<int>)
    ensures DelayedItems(None, now, parse) == []
    ensures forall i, j :: 0 <= i < |p.phases| && 0 <= j < |p.phases[i].tasks| && p.phases[i].tasks[j].status == Delayed
              ==> DelayedItem(p.phases[i].tasks[j], p.phases[i].name) in DelayedItems(Some(p), now, parse)
    ensures forall i, j :: 0 <= i < |p.phases| && 0 <= j < |p.phases[i].tasks|
              && p.phases[i].tasks[j].status !in {Delayed, Completed} && PastDue(p.phases[i].tasks[j], now, parse)
              ==> DelayedItem(p.phases[i].tasks[j].(status := Delayed), p.phases[i].name) in DelayedItems(Some(p), now, parse)
    ensures forall item :: item in DelayedItems(Some(p), now, parse) ==>
              item.task.status == Delayed &&
              exists i, j :: FlaggedAt(p.phases, i, j, now, parse) && item == Tag(p.phases[i].tasks[j], p.phases[i].name)
                && p.phases[i].tasks[j].status != Completed
                && (p.phases[i].tasks[j].status != Delayed ==> Truthy(p.phases[i].tasks[j].endDate) && PastDue(p.phases[i].tasks[j], now, parse))
    ensures |DelayedItems(Some(p), now, parse)| <= TotalTasks(p.phases)
  {
    forall i, j | FlaggedAt(p.phases, i, j, now, parse)
      ensures Tag(p.phases[i].tasks[j], p.phases[i].name) in DelayedItems(Some(p), now, parse)
    {
      DelayedItemsComplete(p.phases, now, parse, i, j);
    }
    forall item | item in DelayedItems(Some(p), now, parse)
      ensures exists i, j :: FlaggedAt(p.phases, i, j, now, parse) && item == Tag(p.phases[i].tasks[j], p.phases[i].name)
    {
      DelayedItemsSound(p.phases, now, parse, item);
    }
  }

  /** A task that is not delayed and has no end date is never listed. */
  lemma NoEndDateNeverListed(p: Project, now: int, parse: string -> Option<int>, i: int, j: int)
    requires 0 <= i < |p.phases| && 0 <= j < |p.phases[i].tasks|
    requires p.phases[i].tasks[j].status != Delayed && p.phases[i].tasks[j].endDate.None?
    ensures !FlaggedAt(p.phases, i, j, now, parse)
  {
  }

  /** Within a phase, items follow task order: the items of earlier tasks
      precede those of later ones. */
  lemma {:induction false} TaskItemsInTaskOrder(a: seq<Task>, b: seq<Task>, name: string, now: int, parse: string -> Option<int>)
    ensures TaskDelayedItems(a + b, name, now, parse)
            == TaskDelayedItems(a, name, now, parse) + TaskDelayedItems(b, name, now, parse)
    decreases |b|
  {
    if b != [] {
      var n := |b| - 1;
      assert (a + b)[..|a + b| - 1] == a + b[..n];
      TaskItemsInTaskOrder(a, b[..n], name, now, parse);
    } else {
      assert a + b == a;
    }
  }

  /** Items come out in phase order: the items of earlier phases precede
      those of later ones. */
  lemma {:induction false} DelayedItemsInPhaseOrder(a: seq<Phase>, b: seq<Phase>, now: int, parse: string -> Option<int>)
    ensures PhaseDelayedItems(a + b, now, parse) == PhaseDelayedItems(a, now, parse) + PhaseDelayedItems(b, now, parse)
    decreases |b|
  {
    if b != [] {
      var n := |b| - 1;
      assert (a + b)[..|a + b| - 1] == a + b[..n];
      DelayedItemsInPhaseOrder(a, b[..n], now, parse);
    } else {
      assert a + b == a;
    }
  }

  /** The table shows the first five delayed items. */
  function TopDelayed(items: seq<DelayedItem>): (r: seq<DelayedItem>)
    ensures |r| <= 5 && r <= items
    ensures |items| <= 5 ==> r == items
    ensures |items| > 5 ==> |r| == 5
  {
    if |items| <= 5 then items else items[..5]
  }

  // ---------------------------------------------------------------------
  // Key metrics

  function CompletedTasksCount(p: Project): nat {
    CountInPhases(p.phases, {Completed})
  }

  /** The "Active/Pending" count: tasks pending or in progress. */
  function ActivePendingCount(p: Project): nat {
    CountInPhases(p.phases, {Pending, InProgress})
  }

  function DelayedTasksCount(p: Project): nat {
    CountInPhases(p.phases, {Delayed})
  }

  lemma {:induction false} CountInPhasesUnion(phases: seq<Phase>, a: set<ItemStatus>, b: set<ItemStatus>)
    requires a !! b
    ensures CountInPhases(phases, a + b) == CountInPhases(phases, a) + CountInPhases(phases, b)
  {
    if phases != [] {
      CountInPhasesUnion(phases[..|phases| - 1], a, b);
      CountStatusUnion(phases[|phases| - 1].tasks, a, b);
    }
  }

  lemma {:induction false} CountInPhasesEvery(phases: seq<Phase>)
    ensures CountInPhases(phases, {Pending, InProgress, Completed, Delayed}) == TotalTasks(phases)
  {
    if phases != [] {
      CountInPhasesEvery(phases[..|phases| - 1]);
      CountEveryStatus(phases[|phases| - 1].tasks);
    }
  }

  /** Completed, active/pending and stored-delayed tasks partition the total:
      completed plus active/pending never exceeds it, and equals it exactly
      when no task is stored as delayed. */
  lemma TaskCountsPartition(p: Project)
    ensures CompletedTasksCount(p) + ActivePendingCount(p) + DelayedTasksCount(p) == TotalTasks(p.phases)
    ensures CompletedTasksCount(p) + ActivePendingCount(p) <= TotalTasks(p.phases)
    ensures CompletedTasksCount(p) + ActivePendingCount(p) == TotalTasks(p.phases) <==> !AnyDelayedTask(p)
  {
    CountInPhasesUnion(p.phases, {Completed}, {Pending, InProgress});
    CountInPhasesUnion(p.phases, {Completed} + {Pending, InProgress}, {Delayed});
    assert {Completed} + {Pending, InProgress} + {Delayed} == {Pending, InProgress, Completed, Delayed};
    CountInPhasesEvery(p.phases);
    if AnyDelayedTask(p) {
      var i, j :| AnyDelayedAt(p, i, j);
      DelayedCountPositive(p.phases, i, j);
    } else {
      forall i, j | 0 <= i < |p.phases| && 0 <= j < |p.phases[i].tasks|
        ensures p.phases[i].tasks[j].status != Delayed
      {
        assert !AnyDelayedAt(p, i, j);
      }
      DelayedCountZero(p.phases);
    }
  }

  predicate AnyDelayedAt(p: Project, i: int, j: int) {
    0 <= i < |p.phases| && 0 <= j < |p.phases[i].tasks| && p.phases[i].tasks[j].status == Delayed
  }

  ghost predicate AnyDelayedTask(p: Project) {
    exists i, j :: AnyDelayedAt(p, i, j)
  }

  lemma {:induction false} DelayedCountPositive(phases: seq<Phase>, i: int, j: int)
    requires 0 <= i < |phases| && 0 <= j < |phases[i].tasks| && phases[i].tasks[j].status == Delayed
    ensures CountInPhases(phases, {Delayed}) > 0
  {
    var n := |phases| - 1;
    if i < n {
      assert phases[..n][i] == phases[i];
      DelayedCountPositive(phases[..n], i, j);
    } else {
      CountStatusNone(phases[n].tasks, {Delayed});
    }
  }

  lemma {:induction false} DelayedCountZero(phases: seq<Phase>)
    requires forall i, j :: 0 <= i < |phases| && 0 <= j < |phases[i].tasks| ==> phases[i].tasks[j].status != Delayed
    ensures CountInPhases(phases, {Delayed}) == 0
  {
    if phases != [] {
      var n := |phases| - 1;
      forall i, j | 0 <= i < n && 0 <= j < |phases[..n][i].tasks|
        ensures phases[..n][i].tasks[j].status != Delayed
      {
        assert phases[..n][i] == phases[i];
      }
      DelayedCountZero(phases[..n]);
      CountStatusNone(phases[n].tasks, {Delayed});
    }
  }

  /** The "Days to Deadline" card: the whole days left until the estimated end
      date when that number is positive, and "Overdue" otherwise, which also
      covers a missing end date ('N/A' > 0 is false) and an unparseable one
      (NaN > 0 is false). */
  function DaysToDeadline(p: Project, now: int, parse: string -> Option<int>): string {
    if !Truthy(p.projectEstimatedEndDate) then "Overdue"
    else
      match parse(p.projectEstimatedEndDate.value)
      case None => "Overdue"
      case Some(end) =>
        var days := DifferenceInDays(end, now);
        if days > 0 then IntToString(days) else "Overdue"
  }

  /** The deadline card shows a positive day count exactly when a parseable
      estimated end date lies at least one whole day ahead, and "Overdue"
      in every other case. */
  lemma DaysToDeadlineIff(p: Project, now: int, parse: string -> Option<int>)
    ensures DaysToDeadline(p, now, parse) != "Overdue" <==>
            Truthy(p.projectEstimatedEndDate)
            && parse(p.projectEstimatedEndDate.value).Some?
            && parse(p.projectEstimatedEndDate.value).value - now >= MsPerDay
    ensures DaysToDeadline(p, now, parse) != "Overdue" ==>
            var end := parse(p.projectEstimatedEndDate.value).value;
            DifferenceInDays(end, now) > 0 && DaysToDeadline(p, now, parse) == Decimal(DifferenceInDays(end, now))
    ensures !Truthy(p.projectEstimatedEndDate) ==> DaysToDeadline(p, now, parse) == "Overdue"
  {
    if Truthy(p.projectEstimatedEndDate) && parse(p.projectEstimatedEndDate.value).Some? {
      var end := parse(p.projectEstimatedEndDate.value).value;
      var days := DifferenceInDays(end, now);
      DifferencePositive(end, now);
      if days > 0 {
        var s := Decimal(days);
        assert IsDigit(s[0]) && !IsDigit("Overdue"[0]);
      }
    }
  }

  /** One card of the metrics row. */
  datatype MetricValue = Count(n: int) | Label(text: string)
  datatype KeyMetric = KeyMetric(id: string, title: string, value: MetricValue, trend: Option<string>)

  /** The four key metric cards, in display order; `trendDraw` is the random
      number in [0, 1) behind the completed-tasks trend. */
  function KeyMetrics(p: Project, now: int, parse: string -> Option<int>, trendDraw: real): (r: seq<KeyMetric>)
    ensures |r| == 4
    ensures r[0].value == Count(TotalTasks(p.phases)) && r[1].value == Count(CompletedTasksCount(p))
    ensures r[2].value == Count(ActivePendingCount(p)) && r[3].value == Label(DaysToDeadline(p, now, parse))
  {
    [
      KeyMetric("total-tasks", "Total Tasks", Count(TotalTasks(p.phases)), None),
      KeyMetric("completed-tasks", "Completed Tasks", Count(CompletedTasksCount(p)),
                Some("+" + IntToString((trendDraw * 5.0).Floor) + "%")),
      KeyMetric("pending-tasks", "Active/Pending Tasks", Count(ActivePendingCount(p)), None),
      KeyMetric("days-remaining", "Days to Deadline", Label(DaysToDeadline(p, now, parse)), None)
    ]
  }
}
