/** The phases page: its state (the phase list, the loading flag and the
    edit dialog's state) and the handlers that change it. */
module PhasesPage {
  import opened Optional
  import opened Types
  import opened PhaseForm
  import opened PhaseList
  import AddPhaseDialog
  import MockData

  /** A phase after a stable insertion of `x`: shifting `x` past the phases
      of larger order at the end of `p` is the same as inserting it into what
      is left and appending those phases. */
  lemma {:induction false} InsertPastLarger(p: seq<Phase>, j: nat, x: Phase)
    requires j <= |p|
    requires forall k :: j <= k < |p| ==> p[k].order > x.order
    ensures Insert(p, x) == Insert(p[..j], x) + p[j..]
    decreases |p|
  {
    if j < |p| {
      var n := |p| - 1;
      assert p[..n][..j] == p[..j];
      InsertPastLarger(p[..n], j, x);
      assert p[..n][j..] + [p[n]] == p[j..];
    } else {
      assert p[..j] == p;
    }
  }

  /** The sort of one more element is the insertion of that element into
      the sort of the ones before it. */
  lemma SortByOrderSnoc(s: seq<Phase>, i: nat)
    requires i < |s|
    ensures SortByOrder(s[..i + 1]) == Insert(SortByOrder(s[..i]), s[i])
  {
    assert s[..i + 1][..i] == s[..i];
  }

  /** The array state the shifting loop of `InsertInPlace` ends in, read
      back as a sequence: `x` has landed at `j`, after the smaller or equal
      orders and before the larger ones, so it is the insertion of `x`. */
  lemma InsertAssembled(p: seq<Phase>, x: Phase, tail: seq<Phase>, j: nat, r: seq<Phase>)
    requires j <= |p| && |r| == |p| + 1 + |tail|
    requires forall k :: 0 <= k < j ==> r[k] == p[k]
    requires r[j] == x
    requires forall k :: j < k <= |p| ==> r[k] == p[k - 1]
    requires forall k :: |p| < k < |r| ==> r[k] == tail[k - |p| - 1]
    requires j > 0 ==> p[j - 1].order <= x.order
    requires forall k :: j <= k < |p| ==> p[k].order > x.order
    ensures r == Insert(p, x) + tail
  {
    InsertPastLarger(p, j, x);
    assert Insert(p[..j], x) == p[..j] + [x];
    var q := p[..j] + [x] + p[j..] + tail;
    forall k | 0 <= k < |r| ensures r[k] == q[k] {
      if k < j {
      } else if k == j {
      } else if k <= |p| {
        assert q[k] == p[k - 1];
      } else {
        assert q[k] == tail[k - |p| - 1];
      }
    }
  }

  /** One step of the insertion sort: moves `a[i]` down past the larger
      orders before it, so the first `i + 1` elements become the stable
      insertion of the old `a[i]` into the old first `i`. */
  method InsertInPlace(a: array<Phase>, i: nat)
    requires i < a.Length
    modifies a
    ensures a[..] == Insert(old(a[..i]), old(a[i])) + old(a[i + 1..])
  {
    var x := a[i];
    ghost var p := a[..i];
    ghost var tail := a[i + 1..];
    var j := i;
    while j > 0 && a[j - 1].order > x.order
      invariant 0 <= j <= i
      invariant forall k :: 0 <= k < j ==> a[k] == p[k]
      invariant forall k :: j < k <= i ==> a[k] == p[k - 1]
      invariant forall k :: i < k < a.Length ==> a[k] == tail[k - i - 1]
      invariant forall k :: j <= k < i ==> p[k].order > x.order
    {
      a[j] := a[j - 1];
      j := j - 1;
    }
    a[j] := x;
    InsertAssembled(p, x, tail, j, a[..]);
  }

  /** `array.sort((a, b) => a.order - b.order)` on the array itself: a stable
      insertion sort, leaving the array equal to `SortByOrder` of its old
      contents. */
  method SortInPlace(a: array<Phase>)
    modifies a
    ensures a[..] == SortByOrder(old(a[..]))
  {
    ghost var s := a[..];
    var i := 0;
    while i < a.Length
      invariant 0 <= i <= a.Length
      invariant a[..] == SortByOrder(s[..i]) + s[i..]
    {
      ghost var sorted := SortByOrder(s[..i]);
      assert |sorted| == i && a[..i] == sorted && a[i] == s[i] && a[i + 1..] == s[i + 1..];
      InsertInPlace(a, i);
      SortByOrderSnoc(s, i);
      i := i + 1;
    }
    assert s[..a.Length] == s;
  }

  class PhasesPageState {
    var phases: seq<Phase>
    var isLoading: bool
    var editingPhase: Option<Phase>
    var isEditModalOpen: bool
    var isSubmittingEdit: bool

    /** The list on the page is always in ascending order. */
    predicate Valid()
      reads this
    {
      SortedByOrder(phases)
    }

    /** The page starts empty and loading, with no phase being edited. */
    constructor()
      ensures Valid()
      ensures phases == [] && isLoading && editingPhase.None? && !isEditModalOpen && !isSubmittingEdit
    {
      phases := [];
      isLoading := true;
      editingPhase := None;
      isEditModalOpen := false;
      isSubmittingEdit := false;
    }

    /** The load effect, the simulated delay taken as one step: the shared
        mock phase array is sorted in place and becomes the list. */
    method LoadPhases(mock: array<Phase>)
      modifies this, mock
      ensures mock[..] == SortByOrder(old(mock[..]))
      ensures phases == mock[..] && !isLoading && Valid()
      ensures editingPhase == old(editingPhase) && isEditModalOpen == old(isEditModalOpen)
      ensures isSubmittingEdit == old(isSubmittingEdit)
    {
      SortInPlace(mock);
      phases := mock[..];
      isLoading := false;
    }

    /** The order offered to the add dialog. */
    function NextOrder(): int
      reads this
    {
      PhaseList.NextOrder(phases)
    }

    /** `onPhaseAdded`: append and sort again. */
    method HandlePhaseAdded(newPhase: Phase)
      requires newPhase.tasks == []
      requires Valid()
      modifies this
      ensures phases == AddPhase(old(phases), newPhase) && Valid()
      ensures isLoading == old(isLoading) && editingPhase == old(editingPhase)
      ensures isEditModalOpen == old(isEditModalOpen) && isSubmittingEdit == old(isSubmittingEdit)
    {
      phases := AddPhase(phases, newPhase);
    }

    /** The edit button of a phase card: remember the phase and open the modal. */
    method HandleEdit(phase: Phase)
      modifies this
      ensures editingPhase == Some(phase) && isEditModalOpen
      ensures phases == old(phases) && isLoading == old(isLoading) && isSubmittingEdit == old(isSubmittingEdit)
    {
      editingPhase := Some(phase);
      isEditModalOpen := true;
    }

    /** The edit modal's `onOpenChange`. */
    method SetEditModalOpen(value: bool)
      modifies this
      ensures isEditModalOpen == value
      ensures phases == old(phases) && isLoading == old(isLoading)
      ensures editingPhase == old(editingPhase) && isSubmittingEdit == old(isSubmittingEdit)
    {
      isEditModalOpen := value;
    }

    /** The delete button of a phase card (after confirmation). */
    method HandleDelete(phaseId: string)
      requires Valid()
      modifies this
      ensures phases == DeletePhase(old(phases), phaseId) && Valid()
      ensures isLoading == old(isLoading) && editingPhase == old(editingPhase)
      ensures isEditModalOpen == old(isEditModalOpen) && isSubmittingEdit == old(isSubmittingEdit)
    {
      DeletePhaseSorted(phases, phaseId);
      phases := DeletePhase(phases, phaseId);
    }

    /** The edit form's submit handler, the simulated delay taken as one
        step. Without a phase being edited nothing happens; otherwise the
        phase with the edited phase's id takes the form data and the modal
        ends closed, not submitting, with no phase being edited. */
    method HandleEditSubmit(data: PhaseFormData)
      requires Valid()
      modifies this
      ensures Valid() && isLoading == old(isLoading)
      ensures old(editingPhase).None? ==>
                && phases == old(phases) && editingPhase == old(editingPhase)
                && isEditModalOpen == old(isEditModalOpen) && isSubmittingEdit == old(isSubmittingEdit)
      ensures old(editingPhase).Some? ==>
                && phases == EditPhases(old(phases), old(editingPhase).value.id, data)
                && editingPhase.None? && !isEditModalOpen && !isSubmittingEdit
    {
      if editingPhase.None? {
        return;
      }
      isSubmittingEdit := true;
      EditPhasesFacts(phases, editingPhase.value.id, data);
      phases := EditPhases(phases, editingPhase.value.id, data);
      isSubmittingEdit := false;
      isEditModalOpen := false;
      editingPhase := None;
    }
  }

  /** Adding through the page's dialog: the form passes only data that
      matches its schema; the dialog builds the phase with the page's next
      order and hands it to the page, which sorts it in. */
  method SubmitAddForm(page: PhasesPageState, dialog: AddPhaseDialog.AddDialogState, data: PhaseFormData, stamp: nat)
    requires page.Valid()
    modifies page, dialog
    ensures page.Valid()
    ensures page.isLoading == old(page.isLoading) && page.editingPhase == old(page.editingPhase)
    ensures page.isEditModalOpen == old(page.isEditModalOpen) && page.isSubmittingEdit == old(page.isSubmittingEdit)
    ensures Submit(data).None? ==>
              && page.phases == old(page.phases) && dialog.added == old(dialog.added)
              && dialog.open == old(dialog.open) && dialog.isLoading == old(dialog.isLoading)
    ensures Submit(data).Some? ==>
              && page.phases == AddPhase(old(page.phases), AddPhaseDialog.NewPhase(data, |old(page.phases)| + 1, stamp))
              && dialog.added == old(dialog.added) + [AddPhaseDialog.NewPhase(data, |old(page.phases)| + 1, stamp)]
              && !dialog.open && !dialog.isLoading
  {
    if Submit(data).Some? {
      var newPhase := dialog.HandleSubmit(data, page.NextOrder(), stamp);
      page.HandlePhaseAdded(newPhase);
    }
  }

  /** The generated mock phases are already in order, so loading them keeps
      them as generated: Foundation, Framing, Exterior, Interior Finishing. */
  lemma MockPhasesLoadInOrder(now: int, draws: nat -> MockData.PhaseDraw, iso: int -> string)
    ensures var ps := MockData.MockProject(now, draws, iso).phases;
            SortedByOrder(ps) && SortByOrder(ps) == ps
  {
    var ps := MockData.MockProject(now, draws, iso).phases;
    MockData.CreatePhasesFacts("project-1", 4, draws, now, iso);
    assert SortedByOrder(ps);
    SortedIsFixed(ps);
  }
}
