/** The adapter between the property form and the session state, an ordinary
    key-value map shared by the whole session. The form lives under one fixed
    key; every entry point first makes sure it is there. Storing a form and
    reading it back are the identity on `FormData` (the dump of a form is the
    form's value). */
module StateManagement {
  import opened Optional
  import opened PropertyForm
  import Text

  /** What the session state holds under a key: the stored form, or one of the
      plain counters (such as the validation counter) and texts that other
      parts of the assistant keep there. The adapter never writes the latter
      two; they stand for the foreign entries it must leave untouched. */
  datatype Value = FormValue(form: FormData) | IntValue(n: int) | TextValue(text: string)

  /** The one key the adapter reads and writes. */
  const FormKey := "property_form"

  /** Whatever is stored under the form key is a form. Anything else there is
      foreign data that loading does not handle. */
  ghost predicate WellFormedState(m: map<string, Value>) {
    FormKey in m ==> m[FormKey].FormValue? && m[FormKey].form.WellFormed()
  }

  /** The stored form, if any, also has a consistent completion flag. */
  ghost predicate StateInvariant(m: map<string, Value>) {
    WellFormedState(m) && (FormKey in m ==> m[FormKey].form.Consistent())
  }

  /** `initialize_form_in_state`: store a fresh form only when none is there. */
  function Initialized(m: map<string, Value>): (r: map<string, Value>)
    ensures FormKey in r
    ensures FormKey in m ==> r == m
    ensures FormKey !in m ==> r[FormKey] == FormValue(EmptyForm())
    ensures forall k :: k != FormKey ==> (k in r <==> k in m)
    ensures forall k :: k != FormKey && k in m ==> r[k] == m[k]
    ensures WellFormedState(m) ==> WellFormedState(r)
    ensures StateInvariant(m) ==> StateInvariant(r)
  {
    if FormKey in m then m else m[FormKey := FormValue(EmptyForm())]
  }

  /** The form `get_form_from_state` returns: the stored one, or a fresh one
      when none was stored. */
  ghost function LoadedForm(m: map<string, Value>): (d: FormData)
    requires WellFormedState(m)
    ensures d.WellFormed()
    ensures FormKey in m ==> d == m[FormKey].form
    ensures FormKey !in m ==> d == EmptyForm()
    ensures StateInvariant(m) ==> d.Consistent()
  {
    Initialized(m)[FormKey].form
  }

  /** `update_form_in_state`: overwrite the form key, last writer wins. */
  function Saved(m: map<string, Value>, d: FormData): (r: map<string, Value>)
    ensures FormKey in r && r[FormKey] == FormValue(d)
    ensures forall k :: k != FormKey ==> (k in r <==> k in m)
    ensures forall k :: k != FormKey && k in m ==> r[k] == m[k]
  {
    m[FormKey := FormValue(d)]
  }

  /** The new state and the reported check of one field update. */
  datatype StateUpdate = StateUpdate(state: map<string, Value>, check: Check)

  /** `update_field_in_form`: load, update, and store the form back even when
      validation failed. */
  ghost function AfterFieldUpdate(m: map<string, Value>, name: string, value: string, matches: Matcher): (r: StateUpdate)
    requires WellFormedState(m)
    ensures WellFormedState(r.state)
    ensures r.check == LoadedForm(m).Update(name, value, matches).check
    ensures LoadedForm(r.state) == LoadedForm(m).Update(name, value, matches).form
    ensures forall k :: k != FormKey ==> (k in r.state <==> k in m)
    ensures forall k :: k != FormKey && k in m ==> r.state[k] == m[k]
  {
    var u := LoadedForm(m).Update(name, value, matches);
    StateUpdate(Saved(Initialized(m), u.form), u.check)
  }

  /** Initialising twice is initialising once, and it never replaces a form. */
  lemma InitializeIdempotent(m: map<string, Value>)
    ensures Initialized(Initialized(m)) == Initialized(m)
    ensures FormKey in m ==> Initialized(m)[FormKey] == m[FormKey]
  {
  }

  /** Loading returns what was stored last, and loading does not change what
      a later load returns. */
  lemma SaveThenLoad(m: map<string, Value>, d: FormData)
    requires d.WellFormed()
    ensures WellFormedState(Saved(m, d))
    ensures LoadedForm(Saved(m, d)) == d
    ensures WellFormedState(m) ==> LoadedForm(Initialized(m)) == LoadedForm(m)
  {
  }

  /** An update of a required field that fails validation is still stored:
      the rejected value is kept with status INVALID, and the failure is
      reported with the fixed message. */
  lemma FailedUpdateIsStored(m: map<string, Value>, name: string, value: string, matches: Matcher)
    requires WellFormedState(m) && ParseRequired(name).Some?
    requires !AfterFieldUpdate(m, name, value, matches).check.ok
    ensures var n := ParseRequired(name).value;
            var stored := LoadedForm(AfterFieldUpdate(m, name, value, matches).state).Field(n);
            && stored.value == Some(value)
            && stored.status == Invalid
            && AfterFieldUpdate(m, name, value, matches).check == Check(false, Some(PatternMismatch))
  {
    LoadedForm(m).UpdateRequiredField(name, value, matches);
  }

  /** Field updates keep the stored form well formed and its flag consistent. */
  lemma FieldUpdateKeepsInvariant(m: map<string, Value>, name: string, value: string, matches: Matcher)
    requires StateInvariant(m)
    ensures StateInvariant(AfterFieldUpdate(m, name, value, matches).state)
  {
    LoadedForm(m).UpdateKeepsConsistent(name, value, matches);
  }

  /** On a state whose flag is consistent, the three queries agree: complete
      exactly when nothing is missing, and exactly when the summary ends with
      the completion banner. */
  lemma QueriesAgree(m: map<string, Value>)
    requires WellFormedState(m)
    ensures LoadedForm(m).IsComplete() <==> LoadedForm(m).MissingFields() == []
    ensures StateInvariant(m) ==>
              (LoadedForm(m).IsComplete() <==> Text.EndsWith(LoadedForm(m).Summary(), CompleteBanner))
  {
    LoadedForm(m).MissingFieldsExact();
    if StateInvariant(m) {
      LoadedForm(m).SummaryShowsCompletion();
    }
  }

  /** The session state as the adapter sees it: a mutable map. */
  class SessionState {
    var entries: map<string, Value>

    /** A session that starts with the given entries, as the runtime creates it. */
    constructor (initial: map<string, Value>)
      ensures entries == initial
    {
      entries := initial;
    }
  }

  method InitializeFormInState(state: SessionState)
    modifies state
    ensures state.entries == Initialized(old(state.entries))
  {
    if FormKey !in state.entries {
      var form := new PropertyFormModel();
      state.entries := state.entries[FormKey := FormValue(form.Dump())];
    }
  }

  /** `get_form_from_state`: initialise, then a new form object holding the
      stored value. */
  method GetFormFromState(state: SessionState) returns (form: PropertyFormModel)
    requires WellFormedState(state.entries)
    modifies state
    ensures fresh(form) && form.WellFormed()
    ensures state.entries == Initialized(old(state.entries))
    ensures form.Dump() == LoadedForm(old(state.entries))
    ensures form.Dump() == state.entries[FormKey].form
  {
    InitializeFormInState(state);
    form := new PropertyFormModel.FromData(state.entries[FormKey].form);
  }

  method UpdateFormInState(state: SessionState, form: PropertyFormModel)
    requires form.WellFormed()
    modifies state
    ensures state.entries == Saved(old(state.entries), form.Dump())
    ensures WellFormedState(state.entries)
  {
    state.entries := state.entries[FormKey := FormValue(form.Dump())];
  }

  /** `update_field_in_form`: load, mutate, store back, and return what the
      form's update returned. */
  method UpdateFieldInForm(state: SessionState, name: string, value: string, matches: Matcher)
    returns (success: bool, error: Option<string>)
    requires WellFormedState(state.entries)
    modifies state
    ensures state.entries == AfterFieldUpdate(old(state.entries), name, value, matches).state
    ensures Check(success, error) == AfterFieldUpdate(old(state.entries), name, value, matches).check
  {
    var form := GetFormFromState(state);
    var c := form.UpdateField(name, value, matches);
    UpdateFormInState(state, form);
    success, error := c.ok, c.error;
  }

  method IsFormComplete(state: SessionState) returns (complete: bool)
    requires WellFormedState(state.entries)
    modifies state
    ensures state.entries == Initialized(old(state.entries))
    ensures complete == LoadedForm(old(state.entries)).IsComplete()
  {
    var form := GetFormFromState(state);
    complete := form.IsComplete();
  }

  method GetMissingFields(state: SessionState) returns (missing: seq<string>)
    requires WellFormedState(state.entries)
    modifies state
    ensures state.entries == Initialized(old(state.entries))
    ensures missing == LoadedForm(old(state.entries)).MissingFields()
  {
    var form := GetFormFromState(state);
    missing := form.GetMissingFields();
  }

  method GetFormSummary(state: SessionState) returns (summary: string)
    requires WellFormedState(state.entries)
    modifies state
    ensures state.entries == Initialized(old(state.entries))
    ensures summary == LoadedForm(old(state.entries)).Summary()
  {
    var form := GetFormFromState(state);
    summary := form.GetFieldsSummary();
  }
}
