/** The phase form: its validation schema, its default values and the label
    of its submit button. Lengths are counted in characters. */
module PhaseForm {
  import opened Optional
  import opened Text
  import opened Types

  /** The values the form submits; an absent description is `None`. */
  datatype PhaseFormData = PhaseFormData(name: string, description: Option<string>)

  /** The fields of a (partial) phase the form reads as its initial data. */
  datatype PhaseDraft = PhaseDraft(id: Option<string>, name: Option<string>, description: Option<string>)

  /** A full phase handed to the form as initial data, as the edit dialog does. */
  function DraftOf(ph: Phase): PhaseDraft {
    PhaseDraft(Some(ph.id), Some(ph.name), ph.description)
  }

  const NameTooShort: string := "Name must be at least 2 characters."
  const NameTooLong: string := "Name must be 100 characters or less."
  const DescriptionTooLong: string := "Description must be 500 characters or less."

  predicate ValidName(name: string) {
    2 <= |name| <= 100
  }

  predicate ValidDescription(description: Option<string>) {
    description.None? || |description.value| <= 500
  }

  /** The schema: a name of 2 to 100 characters, an optional description of
      at most 500. */
  predicate MatchesSchema(data: PhaseFormData) {
    ValidName(data.name) && ValidDescription(data.description)
  }

  /** The messages the schema reports for a submission, field by field. */
  function SchemaIssues(data: PhaseFormData): seq<string> {
    (if |data.name| < 2 then [NameTooShort] else [])
    + (if |data.name| > 100 then [NameTooLong] else [])
    + (if data.description.Some? && |data.description.value| > 500 then [DescriptionTooLong] else [])
  }

  /** The schema reports no issue exactly when the data matches it; each
      message appears exactly when its rule is broken. */
  lemma SchemaIssuesIff(data: PhaseFormData)
    ensures SchemaIssues(data) == [] <==> MatchesSchema(data)
    ensures NameTooShort in SchemaIssues(data) <==> |data.name| < 2
    ensures NameTooLong in SchemaIssues(data) <==> |data.name| > 100
    ensures DescriptionTooLong in SchemaIssues(data) <==> !ValidDescription(data.description)
  {
    assert NameTooShort != NameTooLong && NameTooShort != DescriptionTooLong && NameTooLong != DescriptionTooLong by {
      assert NameTooShort[15] != NameTooLong[15];
      assert NameTooShort[0] != DescriptionTooLong[0] && NameTooLong[0] != DescriptionTooLong[0];
    }
  }

  /** Submitting the form: the handler is called with the data when the
      schema accepts it and not at all otherwise. */
  function Submit(data: PhaseFormData): Option<PhaseFormData> {
    if SchemaIssues(data) == [] then Some(data) else None
  }

  /** The handler only ever receives data that matches the schema, and it
      receives every such submission unchanged. */
  lemma SubmitOnlyValid(data: PhaseFormData)
    ensures Submit(data).Some? ==> MatchesSchema(Submit(data).value) && Submit(data).value == data
    ensures MatchesSchema(data) ==> Submit(data) == Some(data)
  {
    SchemaIssuesIff(data);
  }

  /** The form's initial values: the draft's name and description when
      truthy, the empty string otherwise. */
  function DefaultValues(initial: Option<PhaseDraft>): PhaseFormData {
    var name := if initial.Some? && Truthy(initial.value.name) then initial.value.name.value else "";
    var description := if initial.Some? && Truthy(initial.value.description) then initial.value.description.value else "";
    PhaseFormData(name, Some(description))
  }

  /** The add form starts empty, so it cannot be submitted unchanged; the
      edit form starts from the phase's own name and description. */
  lemma DefaultValuesFacts(ph: Phase)
    ensures DefaultValues(None) == PhaseFormData("", Some(""))
    ensures Submit(DefaultValues(None)) == None
    ensures DefaultValues(Some(DraftOf(ph))).name == ph.name
    ensures DefaultValues(Some(DraftOf(ph))).description
            == Some(if ph.description.Some? then ph.description.value else "")
  {
    SchemaIssuesIff(DefaultValues(None));
  }

  /** The submit button's label. */
  function ButtonLabel(isLoading: bool, initial: Option<PhaseDraft>): string {
    if isLoading then "Saving..."
    else if initial.Some? && Truthy(initial.value.id) then "Save Changes"
    else "Create Phase"
  }

  /** The label reads "Saving..." exactly while loading; otherwise editing a
      phase with an id reads "Save Changes" and the add form "Create Phase". */
  lemma ButtonLabelFacts(isLoading: bool, ph: Phase)
    ensures ButtonLabel(isLoading, Some(DraftOf(ph))) == "Saving..." <==> isLoading
    ensures ButtonLabel(isLoading, None) == "Saving..." <==> isLoading
    ensures !isLoading && ph.id != "" ==> ButtonLabel(isLoading, Some(DraftOf(ph))) == "Save Changes"
    ensures !isLoading && ph.id == "" ==> ButtonLabel(isLoading, Some(DraftOf(ph))) == "Create Phase"
    ensures !isLoading ==> ButtonLabel(isLoading, None) == "Create Phase"
  {
    assert "Save Changes" != "Saving..." by { assert "Save Changes"[3] != "Saving..."[3]; }
    assert "Create Phase" != "Saving..." by { assert "Create Phase"[0] != "Saving..."[0]; }
  }
}
