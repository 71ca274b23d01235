/** The "Add New Phase" dialog: its open and loading flags and the submit
    handler that builds a new phase and passes it to `onPhaseAdded`. */
module AddPhaseDialog {
  import opened Text
  import opened Types
  import opened PhaseForm

  /** The id prefix of a phase created in the dialog. */
  const IdPrefix: string := "phase-"

  /** `{ ...data, id: `phase-${stamp}`, order: nextOrder, tasks: [] }`, where
      `stamp` stands for the `Date.now()` reading at submit time. */
  function NewPhase(data: PhaseFormData, nextOrder: int, stamp: nat): Phase {
    Phase(IdPrefix + Decimal(stamp), data.name, data.description, nextOrder, [])
  }

  /** The new phase carries the submitted name and description, the offered
      order and no tasks; its id is "phase-" followed by the stamp's digits,
      from which the stamp can be read back, so different stamps give
      different ids. */
  lemma NewPhaseFacts(data: PhaseFormData, nextOrder: int, stamp: nat, other: nat)
    ensures var p := NewPhase(data, nextOrder, stamp);
            p.name == data.name && p.description == data.description &&
            p.order == nextOrder && p.tasks == []
    ensures var id := NewPhase(data, nextOrder, stamp).id;
            |id| > |IdPrefix| && id[..|IdPrefix|] == IdPrefix &&
            AllDigits(id[|IdPrefix|..]) && ParseDecimal(id[|IdPrefix|..]) == stamp
    ensures stamp != other ==> NewPhase(data, nextOrder, stamp).id != NewPhase(data, nextOrder, other).id
  {
    var id := NewPhase(data, nextOrder, stamp).id;
    assert id[|IdPrefix|..] == Decimal(stamp);
    DecimalRoundTrip(stamp);
    NumberedIdsDistinct(IdPrefix, stamp, other);
  }

  class AddDialogState {
    var open: bool
    var isLoading: bool
    /** The phases passed to `onPhaseAdded`, oldest first. */
    var added: seq<Phase>

    /** The dialog starts closed and not loading. */
    constructor()
      ensures !open && !isLoading && added == []
    {
      open := false;
      isLoading := false;
      added := [];
    }

    /** `onOpenChange`: the trigger button or the close button. */
    method SetOpen(value: bool)
      modifies this
      ensures open == value
      ensures isLoading == old(isLoading) && added == old(added)
    {
      open := value;
    }

    /** The form's submit handler, with the simulated delay taken as one
        step: the new phase is passed to `onPhaseAdded` exactly once, and the
        dialog ends closed and not loading. */
    method HandleSubmit(data: PhaseFormData, nextOrder: int, stamp: nat) returns (newPhase: Phase)
      modifies this
      ensures newPhase == NewPhase(data, nextOrder, stamp)
      ensures added == old(added) + [newPhase]
      ensures !isLoading && !open
    {
      isLoading := true;
      newPhase := NewPhase(data, nextOrder, stamp);
      added := added + [newPhase];
      isLoading := false;
      open := false;
    }
  }
}
