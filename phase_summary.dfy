/** The figures a phase card shows: task counts, the rounded progress, the
    pending count and the phase status derived from its tasks' statuses. */
module PhaseSummary {
  import opened Types
  import Percent

  function CompletedTasks(ph: Phase): nat {
    CountStatus(ph.tasks, {Completed})
  }

  function PhaseTaskCount(ph: Phase): nat {
    |ph.tasks|
  }

  /** The progress percentage; 0 for a phase without tasks. */
  function Progress(ph: Phase): nat {
    if PhaseTaskCount(ph) > 0 then Percent.RoundedPercent(CompletedTasks(ph), PhaseTaskCount(ph)) else 0
  }

  /** The count shown as "Pending": every task that is not completed. */
  function PendingCount(ph: Phase): int {
    PhaseTaskCount(ph) - CompletedTasks(ph)
  }

  /** Whether some task has status `st`, as `tasks.some(...)`. */
  predicate AnyWithStatus(tasks: seq<Task>, st: ItemStatus) {
    exists i :: 0 <= i < |tasks| && tasks[i].status == st
  }

  /** The status shown for the phase: guarded returns checked in order. */
  function OverallStatus(ph: Phase): ItemStatus {
    if PhaseTaskCount(ph) == 0 then Pending
    else if CompletedTasks(ph) == PhaseTaskCount(ph) then Completed
    else if AnyWithStatus(ph.tasks, Delayed) then Delayed
    else if AnyWithStatus(ph.tasks, InProgress) then InProgress
    else Pending
  }

  /** Progress stays within 0..100; it is 0 without tasks or without a
      completed task and 100 when every task is completed. */
  lemma ProgressInRange(ph: Phase)
    ensures 0 <= Progress(ph) <= 100
    ensures CompletedTasks(ph) == 0 ==> Progress(ph) == 0
    ensures PhaseTaskCount(ph) > 0 && (forall i :: 0 <= i < |ph.tasks| ==> ph.tasks[i].status == Completed)
            ==> Progress(ph) == 100
  {
    if PhaseTaskCount(ph) > 0 {
      Percent.PercentInRange(CompletedTasks(ph), PhaseTaskCount(ph));
      Percent.PercentZero(CompletedTasks(ph), PhaseTaskCount(ph));
      Percent.PercentFull(CompletedTasks(ph), PhaseTaskCount(ph));
      CountStatusAll(ph.tasks, {Completed});
    }
  }

  /** The pending count is never negative: it counts the tasks that are
      pending, in progress or delayed. */
  lemma PendingCountIsOpenTasks(ph: Phase)
    ensures PendingCount(ph) >= 0
    ensures PendingCount(ph) == CountStatus(ph.tasks, {Pending, InProgress, Delayed})
  {
    CountStatusUnion(ph.tasks, {Completed}, {Pending, InProgress, Delayed});
    assert {Completed} + {Pending, InProgress, Delayed} == {Pending, InProgress, Completed, Delayed};
    CountEveryStatus(ph.tasks);
  }

  /** "completed" exactly when the phase has tasks and all are completed. */
  lemma StatusCompletedIff(ph: Phase)
    ensures OverallStatus(ph) == Completed <==>
            |ph.tasks| > 0 && forall i :: 0 <= i < |ph.tasks| ==> ph.tasks[i].status == Completed
  {
    CountStatusAll(ph.tasks, {Completed});
  }

  /** "delayed" exactly when some task is delayed: this outranks any task
      in progress. */
  lemma StatusDelayedIff(ph: Phase)
    ensures OverallStatus(ph) == Delayed <==> AnyWithStatus(ph.tasks, Delayed)
  {
    CountStatusAll(ph.tasks, {Completed});
    if AnyWithStatus(ph.tasks, Delayed) {
      var i :| 0 <= i < |ph.tasks| && ph.tasks[i].status == Delayed;
      assert ph.tasks[i].status !in {Completed};
    }
  }

  /** "in-progress" exactly when no task is delayed and some task is in progress. */
  lemma StatusInProgressIff(ph: Phase)
    ensures OverallStatus(ph) == InProgress <==>
            !AnyWithStatus(ph.tasks, Delayed) && AnyWithStatus(ph.tasks, InProgress)
  {
    CountStatusAll(ph.tasks, {Completed});
    if AnyWithStatus(ph.tasks, InProgress) {
      var i :| 0 <= i < |ph.tasks| && ph.tasks[i].status == InProgress;
      assert ph.tasks[i].status !in {Completed};
    }
  }

  /** "pending" exactly when the phase is empty, or its tasks are all pending
      or completed and at least one is pending. */
  lemma StatusPendingIff(ph: Phase)
    ensures OverallStatus(ph) == Pending <==>
            |ph.tasks| == 0 ||
            ((forall i :: 0 <= i < |ph.tasks| ==> ph.tasks[i].status in {Pending, Completed})
             && AnyWithStatus(ph.tasks, Pending))
  {
    CountStatusAll(ph.tasks, {Completed});
    if OverallStatus(ph) == Pending && |ph.tasks| > 0 {
      forall i | 0 <= i < |ph.tasks| ensures ph.tasks[i].status in {Pending, Completed} {
        assert ph.tasks[i].status != Delayed && ph.tasks[i].status != InProgress;
      }
      var k :| 0 <= k < |ph.tasks| && ph.tasks[k].status !in {Completed};
      assert ph.tasks[k].status == Pending;
    }
    if AnyWithStatus(ph.tasks, Pending) {
      var i :| 0 <= i < |ph.tasks| && ph.tasks[i].status == Pending;
      assert ph.tasks[i].status !in {Completed};
    }
  }
}
