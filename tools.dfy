/** The two operations the conversational agent calls: record one field value
    it extracted from the user's words, and report the form's status. */
module Tools {
  import opened Optional
  import Text
  import opened PropertyForm
  import opened StateManagement

  const StandardFields: seq<string> := ["budget", "total_size", "real_estate_type", "city"]
  const UnchangedMessage := "Field already has this value"
  const ValidationFailed := "Validation failed"

  /** The counter another agent keeps in the session state. */
  const ValidationCountKey := "form_validation_count"

  /** Lower-case the name and turn its spaces into underscores. */
  function NormalizeFieldName(name: string): (r: string)
    ensures |r| == |name|
    ensures forall i :: 0 <= i < |r| ==> r[i] != ' ' && !Text.IsUpper(r[i])
    ensures forall i :: 0 <= i < |r| ==> r[i] == if name[i] == ' ' then '_' else Text.LowerChar(name[i])
  {
    Text.ReplaceChar(Text.Lower(name), ' ', '_')
  }

  /** Normalising a normalised name changes nothing. */
  lemma NormalizeIdempotent(name: string)
    ensures NormalizeFieldName(NormalizeFieldName(name)) == NormalizeFieldName(name)
  {
    var once := NormalizeFieldName(name);
    var twice := NormalizeFieldName(once);
    forall i | 0 <= i < |once| ensures twice[i] == once[i] {
      assert once[i] != ' ';
    }
  }

  /** The standard names are exactly the required field keys. */
  lemma StandardFieldsAreRequired(name: string)
    ensures name in StandardFields <==> ParseRequired(name).Some?
  {
    if ParseRequired(name).Some? {
      match ParseRequired(name).value
      case Budget => assert StandardFields[0] == name;
      case TotalSize => assert StandardFields[1] == name;
      case RealEstateType => assert StandardFields[2] == name;
      case City => assert StandardFields[3] == name;
    }
  }

  /** The `error_msg or 'Validation failed'` fallback. */
  function ErrorText(error: Option<string>): (r: string)
    ensures r != ""
    ensures error.Some? && error.value != "" ==> r == error.value
    ensures error.None? || error.value == "" ==> r == ValidationFailed
  {
    if error.Some? && error.value != "" then error.value else ValidationFailed
  }

  /** The record `extract_field` returns. Every variant reports the normalised
      field name and the value. */
  datatype ExtractResult =
    | Unchanged(field: string, value: string, message: string)
    | Error(field: string, value: string, error: string)
    | Success(field: string, value: string, isStandardField: bool)

  /** The value stored for a normalised name: the required field's for a
      standard name, the additional entry's for a known other name, and none
      otherwise. */
  function CurrentValue(form: FormData, name: string): (r: Option<string>)
    ensures ParseRequired(name).Some? ==> r == form.Field(ParseRequired(name).value).value
    ensures ParseRequired(name).None? && name !in form.additionalFields ==> r == None
    ensures ParseRequired(name).None? && name in form.additionalFields ==> r == form.additionalFields[name].value
  {
    StandardFieldsAreRequired(name);
    if name in StandardFields then form.Field(ParseRequired(name).value).value
    else if name in form.additionalFields then form.additionalFields[name].value
    else None
  }

  /** A tool's reply together with the session state it leaves. */
  datatype ExtractCall = ExtractCall(result: ExtractResult, state: map<string, Value>)

  /** `extract_field`: skip the write when the stored value already equals the
      incoming one; otherwise update through the adapter and report an error
      with the validator's message, or success. */
  ghost function Extract(m: map<string, Value>, fieldName: string, value: string, matches: Matcher): (r: ExtractCall)
    requires WellFormedState(m)
    ensures WellFormedState(r.state)
  {
    var name := NormalizeFieldName(fieldName);
    if CurrentValue(LoadedForm(m), name) == Some(value) then
      ExtractCall(Unchanged(name, value, UnchangedMessage), Initialized(m))
    else
      var u := AfterFieldUpdate(Initialized(m), name, value, matches);
      if !u.check.ok then ExtractCall(Error(name, value, ErrorText(u.check.error)), u.state)
      else ExtractCall(Success(name, value, name in StandardFields), u.state)
  }

  /** Every reply carries the normalised name and the incoming value. */
  lemma ExtractReportsNormalizedName(m: map<string, Value>, fieldName: string, value: string, matches: Matcher)
    requires WellFormedState(m)
    ensures Extract(m, fieldName, value, matches).result.field == NormalizeFieldName(fieldName)
    ensures Extract(m, fieldName, value, matches).result.value == value
  {
  }

  /** The reply is "unchanged" exactly when the stored value already equals
      the incoming one, and then the stored form is untouched (only a missing
      form is initialised). */
  lemma UnchangedIffSameValue(m: map<string, Value>, fieldName: string, value: string, matches: Matcher)
    requires WellFormedState(m)
    ensures var name := NormalizeFieldName(fieldName);
            Extract(m, fieldName, value, matches).result.Unchanged?
            <==> CurrentValue(LoadedForm(m), name) == Some(value)
    ensures Extract(m, fieldName, value, matches).result.Unchanged? ==>
              && Extract(m, fieldName, value, matches).state == Initialized(m)
              && LoadedForm(Extract(m, fieldName, value, matches).state) == LoadedForm(m)
  {
  }

  /** A required field that already holds the value is left alone even when
      that value was rejected (status INVALID): the reply is "unchanged". */
  lemma UnchangedEvenWhenInvalid(m: map<string, Value>, fieldName: string, value: string, matches: Matcher)
    requires WellFormedState(m)
    requires ParseRequired(NormalizeFieldName(fieldName)).Some?
    requires var f := LoadedForm(m).Field(ParseRequired(NormalizeFieldName(fieldName)).value);
             f.value == Some(value) && f.status == Invalid
    ensures Extract(m, fieldName, value, matches) == ExtractCall(Unchanged(NormalizeFieldName(fieldName), value, UnchangedMessage), Initialized(m))
  {
  }

  /** A name that is neither standard nor already known has no stored value,
      so its value always reaches the update, which stores it as VALID. */
  lemma NewNameIsAlwaysStored(m: map<string, Value>, fieldName: string, value: string, matches: Matcher)
    requires WellFormedState(m)
    requires var name := NormalizeFieldName(fieldName);
             name !in StandardFields && name !in LoadedForm(m).additionalFields
    ensures var name := NormalizeFieldName(fieldName);
            var r := Extract(m, fieldName, value, matches);
            && r.result == Success(name, value, false)
            && LoadedForm(r.state).additionalFields[name] == NewAdditionalField(name, value)
  {
    var name := NormalizeFieldName(fieldName);
    StandardFieldsAreRequired(name);
    LoadedForm(Initialized(m)).UpdateAdditionalField(name, value, matches);
  }

  /** An "error" reply happens exactly when the update's validation fails,
      only for a standard name, and it carries the validator's message. */
  lemma ErrorOnlyOnFailedValidation(m: map<string, Value>, fieldName: string, value: string, matches: Matcher)
    requires WellFormedState(m)
    ensures var name := NormalizeFieldName(fieldName);
            var r := Extract(m, fieldName, value, matches).result;
            && (r.Error? <==> CurrentValue(LoadedForm(m), name) != Some(value)
                              && !LoadedForm(m).Update(name, value, matches).check.ok)
            && (r.Error? ==> name in StandardFields && r.error == PatternMismatch)
  {
    var name := NormalizeFieldName(fieldName);
    StandardFieldsAreRequired(name);
    if ParseRequired(name).None? {
      LoadedForm(m).UpdateAdditionalField(name, value, matches);
    }
  }

  /** A "success" reply flags a standard name exactly when the normalised
      name is one of the four required keys. */
  lemma SuccessFlagsStandardNames(m: map<string, Value>, fieldName: string, value: string, matches: Matcher)
    requires WellFormedState(m)
    requires Extract(m, fieldName, value, matches).result.Success?
    ensures Extract(m, fieldName, value, matches).result.isStandardField
            <==> ParseRequired(NormalizeFieldName(fieldName)).Some?
  {
    StandardFieldsAreRequired(NormalizeFieldName(fieldName));
  }

  /** Repeating a call that wrote gets "unchanged" and leaves the state as
      the first call did. */
  lemma RepeatedExtractIsUnchanged(m: map<string, Value>, fieldName: string, value: string, matches: Matcher)
    requires WellFormedState(m)
    ensures var first := Extract(m, fieldName, value, matches);
            var second := Extract(first.state, fieldName, value, matches);
            && second.result == Unchanged(NormalizeFieldName(fieldName), value, UnchangedMessage)
            && second.state == first.state
  {
    var name := NormalizeFieldName(fieldName);
    var first := Extract(m, fieldName, value, matches);
    if !first.result.Unchanged? {
      StandardFieldsAreRequired(name);
      match ParseRequired(name)
      case Some(_) => LoadedForm(m).UpdateRequiredField(name, value, matches);
      case None => LoadedForm(m).UpdateAdditionalField(name, value, matches);
    }
  }

  /** The tool keeps the stored form's flag consistent; and while no required
      field carries a pattern, which holds from a fresh form on, it never
      replies "error". */
  lemma ExtractKeepsInvariant(m: map<string, Value>, fieldName: string, value: string, matches: Matcher)
    requires StateInvariant(m)
    ensures StateInvariant(Extract(m, fieldName, value, matches).state)
    ensures LoadedForm(m).PatternsAbsent() ==>
              && !Extract(m, fieldName, value, matches).result.Error?
              && LoadedForm(Extract(m, fieldName, value, matches).state).PatternsAbsent()
  {
    var name := NormalizeFieldName(fieldName);
    FieldUpdateKeepsInvariant(m, name, value, matches);
    if LoadedForm(m).PatternsAbsent() {
      LoadedForm(m).UpdateWithoutPatterns(name, value, matches);
    }
  }

  method ExtractField(fieldName: string, value: string, state: SessionState, matches: Matcher)
    returns (result: ExtractResult)
    requires WellFormedState(state.entries)
    modifies state
    ensures ExtractCall(result, state.entries) == Extract(old(state.entries), fieldName, value, matches)
  {
    ghost var m := state.entries;
    var name := NormalizeFieldName(fieldName);
    var isStandardField := name in StandardFields;
    StandardFieldsAreRequired(name);
    var form := GetFormFromState(state);
    ghost var loaded := form.Dump();
    var current: Option<string> := None;
    if isStandardField {
      current := form.Field(ParseRequired(name).value).value;
    } else if name in form.additionalFields {
      current := form.additionalFields[name].value;
    }
    assert current == CurrentValue(loaded, name);
    if current == Some(value) {
      return Unchanged(name, value, UnchangedMessage);
    }
    ghost var u := AfterFieldUpdate(Initialized(m), name, value, matches);
    var success, error := UpdateFieldInForm(state, name, value, matches);
    assert state.entries == u.state && Check(success, error) == u.check;
    if !success {
      return Error(name, value, ErrorText(error));
    }
    return Success(name, value, isStandardField);
  }

  /** The record `check_form_status` returns. */
  datatype FormStatus = FormStatus(formComplete: bool, missingFields: seq<string>, summary: string,
                                   validationCount: Value)

  /** The stored validation counter, or 0 when there is none. */
  function ValidationCount(m: map<string, Value>): (r: Value)
    ensures ValidationCountKey in m ==> r == m[ValidationCountKey]
    ensures ValidationCountKey !in m ==> r == IntValue(0)
  {
    if ValidationCountKey in m then m[ValidationCountKey] else IntValue(0)
  }

  /** What `check_form_status` reports for a state. */
  ghost function StatusOf(m: map<string, Value>): FormStatus
    requires WellFormedState(m)
  {
    var form := LoadedForm(m);
    FormStatus(form.IsComplete(), form.MissingFields(), form.Summary(), ValidationCount(m))
  }

  /** The report is complete exactly when nothing is missing; on a state with
      a consistent flag the summary shows the banner exactly then too; and the
      counter is the one stored, which initialisation never touches. */
  lemma StatusAgrees(m: map<string, Value>)
    requires WellFormedState(m)
    ensures StatusOf(m).formComplete <==> StatusOf(m).missingFields == []
    ensures StateInvariant(m) ==>
              (StatusOf(m).formComplete <==> Text.EndsWith(StatusOf(m).summary, CompleteBanner))
    ensures StatusOf(m).validationCount == ValidationCount(Initialized(m))
  {
    QueriesAgree(m);
  }

  method CheckFormStatus(state: SessionState) returns (status: FormStatus)
    requires WellFormedState(state.entries)
    modifies state
    ensures state.entries == Initialized(old(state.entries))
    ensures status == StatusOf(old(state.entries))
  {
    var missing := GetMissingFields(state);
    var complete := IsFormComplete(state);
    var summary := GetFormSummary(state);
    var count := if ValidationCountKey in state.entries then state.entries[ValidationCountKey] else IntValue(0);
    status := FormStatus(complete, missing, summary, count);
  }
}
