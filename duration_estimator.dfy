/** The AI duration estimator dialog: the description being edited, the
    loading flag, the error and the suggestion, and what submitting and
    accepting do to them. The estimator itself is a parameter that either
    returns an estimate or fails. */
module DurationEstimator {
  import opened Optional
  import opened Text

  /** The estimate the estimator returns: a duration with units and the
      reasoning behind it. */
  datatype EstimateDurationOutput = EstimateDurationOutput(durationEstimate: string, reasoning: string)

  /** One call of the estimator: it returns an estimate or throws. */
  datatype EstimateOutcome = Estimated(output: EstimateDurationOutput) | Failed

  const BlankDescriptionError: string := "Please provide a description for the item."
  const EstimateFailedError: string := "Failed to get an estimate. Please try again."

  class EstimatorDialogState {
    var description: string
    var isLoading: bool
    var error: Option<string>
    var suggestion: Option<EstimateDurationOutput>
    /** The descriptions passed to the estimator, oldest first. */
    var estimatorCalls: seq<string>
    /** The estimates passed to `onEstimateGenerated`, oldest first. */
    var generated: seq<EstimateDurationOutput>
    /** The values passed to `onOpenChange`, oldest first. */
    var openChanges: seq<bool>

    /** The dialog starts from the initial description (empty by default),
        not loading, with no error and no suggestion. */
    constructor(initialDescription: string := "")
      ensures description == initialDescription && !isLoading && error.None? && suggestion.None?
      ensures estimatorCalls == [] && generated == [] && openChanges == []
    {
      description := initialDescription;
      isLoading := false;
      error := None;
      suggestion := None;
      estimatorCalls := [];
      generated := [];
      openChanges := [];
    }

    /** Typing in the description box. */
    method SetDescription(value: string)
      modifies this
      ensures description == value
      ensures isLoading == old(isLoading) && error == old(error) && suggestion == old(suggestion)
      ensures estimatorCalls == old(estimatorCalls) && generated == old(generated) && openChanges == old(openChanges)
    {
      description := value;
    }

    /** The form's submit handler, the awaited call taken as one step. A
        blank description only sets the blank-description error. Otherwise
        the error and suggestion are cleared, the estimator is called once
        with the exact description, its estimate becomes the suggestion or
        its failure sets the failure error, and loading ends false. */
    method HandleSubmit(estimator: string -> EstimateOutcome)
      modifies this
      ensures description == old(description) && generated == old(generated) && openChanges == old(openChanges)
      ensures Trim(old(description)) == "" ==>
                && error == Some(BlankDescriptionError)
                && isLoading == old(isLoading) && suggestion == old(suggestion)
                && estimatorCalls == old(estimatorCalls)
      ensures Trim(old(description)) != "" ==>
                && estimatorCalls == old(estimatorCalls) + [old(description)]
                && !isLoading
                && (estimator(old(description)).Estimated? ==>
                      suggestion == Some(estimator(old(description)).output) && error.None?)
                && (estimator(old(description)).Failed? ==>
                      error == Some(EstimateFailedError) && suggestion.None?)
    {
      if Trim(description) == "" {
        error := Some(BlankDescriptionError);
        return;
      }
      isLoading := true;
      error := None;
      suggestion := None;
      estimatorCalls := estimatorCalls + [description];
      var outcome := estimator(description);
      match outcome {
        case Estimated(result) =>
          suggestion := Some(result);
        case Failed =>
          error := Some(EstimateFailedError);
      }
      isLoading := false;
    }

    /** Accepting the suggestion passes it to `onEstimateGenerated` and asks
        to close the dialog; without a suggestion nothing happens. */
    method HandleAcceptSuggestion()
      modifies this
      ensures description == old(description) && isLoading == old(isLoading)
      ensures error == old(error) && suggestion == old(suggestion) && estimatorCalls == old(estimatorCalls)
      ensures old(suggestion).Some? ==>
                generated == old(generated) + [old(suggestion).value] && openChanges == old(openChanges) + [false]
      ensures old(suggestion).None? ==> generated == old(generated) && openChanges == old(openChanges)
    {
      if suggestion.Some? {
        generated := generated + [suggestion.value];
        openChanges := openChanges + [false];
      }
    }
  }
}
