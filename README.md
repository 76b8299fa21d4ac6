# Property form state engine

This project models the form-state core of a conversational assistant for
commercial real estate search. A user describes the property they want. An agent
pulls field values out of their words and records them in a property form. The
form has four required fields (budget, total size, real estate type, city) and
any number of free-form additional fields. The form lives in the session state as
a plain dictionary. The agent asks how complete it is and reads back a Markdown
summary.

The model has three parts.

- `PropertyForm` (`property_form.dfy`) covers the field and form model.
  - `FormData` is the form as a value; its ghost members are the specification.
  - `PropertyFormModel` is the mutable form object. Its methods are proved
    against that specification.
  - Properties proved:
    - how an update routes and validates;
    - the cached completion flag stays consistent;
    - updates are idempotent;
    - the last update to a field decides its value;
    - the list of missing fields is exact;
    - the layout of the summary;
    - the summary shows the completion banner exactly when the cached
      completion flag is set, so exactly when the form is complete as long as
      that flag is consistent with the fields.
- `StateManagement` (`state_management.dfy`) covers the adapter between the form and the session state.
  - `SessionState` is a mutable map from keys to `Value`s.
  - Initialisation is idempotent, and loading returns what was stored last.
  - A failed update is still stored.
  - On a state whose stored flag is consistent with the fields, the three
    queries (complete, missing, summary) agree.
- `Tools` (`tools.dfy`) covers the two agent tools, `extract_field` and
  `check_form_status`, proved against the spec functions `Extract` and
  `StatusOf`. It proves:
  - when the reply is "unchanged", "error" or "success";
  - a repeated call reports "unchanged";
  - the form invariant is kept.

`Optional` and `Text` are support modules.
- `Optional` is an option type.
- `Text` covers the string operations of the source:
  - ASCII case mapping, `lower`, `title` and `replace`;
  - `join`.
- `Text` also defines `EndsWith`, a predicate that the summary lemmas state
  their results with. The source itself does not call it.

Regular expressions are a parameter. Every operation that validates takes
`matches: Matcher`, a function from pattern and value to "matches at the start".
Every property holds for every such function.

## Model

| member | source | states |
|---|---|---|
| PropertyForm.PropertyField.ValidateValue | app/models/property_form.py:32-49 | no pattern, an empty pattern or an empty value always pass; otherwise ok exactly when the pattern matches; ok exactly when there is no message; a failure carries the fixed mismatch message |
| PropertyForm.ParseRequired | app/models/property_form.py:137 | a name selects a required field exactly when it equals that field's key (case-sensitive); every other string selects none |
| PropertyForm.KeysDistinct | app/models/property_form.py:137 | the four required keys are pairwise distinct |
| PropertyForm.DefaultField | app/models/property_form.py:67-90 | a default required field is NOT_PROVIDED, with no value and no pattern |
| PropertyForm.NewAdditionalField | app/models/property_form.py:154-161 | a first-time additional field is VALID, holds the value, describes itself as "Additional field: <name>" and has the value as its only example |
| PropertyForm.FormData.WithField | app/models/property_form.py:138-142 | replacing one required field leaves the other three, the additional fields and the flag unchanged |
| PropertyForm.FormData.IsCompleteFieldByField | app/models/property_form.py:95-98 | complete exactly when budget, total size, real estate type and city are all VALID |
| PropertyForm.FormData.Update | app/models/property_form.py:121-167 | an update keeps the form well formed, never removes an additional field, keeps their insertion order as a prefix, and changes no field other than the named one |
| PropertyForm.FormData.UpdateRequiredField | app/models/property_form.py:137-151 | a required name stores the value even when validation fails, sets VALID or INVALID by the validation result, returns that result, keeps description, examples and pattern, leaves additional fields alone and recomputes the flag |
| PropertyForm.FormData.UpdateStep | app/models/property_form.py:137-151 | seen from one required field, an update naming it stores the value with its validation status, and any other update leaves it unchanged |
| PropertyForm.FormData.AppendKeepsWellFormed | app/models/property_form.py:154-161 | adding a new additional key to the map and to the end of the order keeps them in step |
| PropertyForm.FormData.UpdateAdditionalField | app/models/property_form.py:153-167 | any other name always succeeds with no message and is stored VALID; a new name gets a fresh entry appended to the order; for an existing name only the entry's value and status change (description, examples and pattern are kept) and the order is unchanged; required fields and the flag are untouched |
| PropertyForm.FormData.UpdateKeepsConsistent | app/models/property_form.py:100-103 | if the cached flag equals is_complete before an update, it does after |
| PropertyForm.FormData.UpdateIdempotent | app/models/property_form.py:121-167 | applying the same update twice gives the same form and the same result as applying it once |
| PropertyForm.FormData.UpdateWithoutPatterns | app/models/property_form.py:44-49 | while no required field has a pattern, every update succeeds and no pattern appears |
| PropertyForm.FormData.MissingFieldsInOrder | app/models/property_form.py:105-119 | the missing list is the keys of the non-VALID required fields in the order budget, total_size, real_estate_type, city |
| PropertyForm.FormData.MissingFieldsExact | app/models/property_form.py:105-119 | a required key is listed exactly when its field is not VALID; only required keys are listed; the list is empty exactly when the form is complete |
| PropertyForm.FormData.RequiredLines | app/models/property_form.py:186-192 | definition: one rendered line per required field of the given list, in that order |
| PropertyForm.FormData.AdditionalLines | app/models/property_form.py:197-199 | definition: one rendered line per given additional key, in that order |
| PropertyForm.FormData.SummaryLayout | app/models/property_form.py:169-209 | the summary lines are the Required Fields header, the four required lines in fixed order, the Additional Fields section exactly when there are additional fields (one line per key in insertion order), then the Form Status header and the status line |
| PropertyForm.FormData.SummaryBanner | app/models/property_form.py:201-207 | the summary ends with the completion banner exactly when the cached flag is set; otherwise it ends with "Waiting for:" and the back-quoted missing keys |
| PropertyForm.FormData.SummaryShowsCompletion | app/models/property_form.py:201-207 | with a consistent flag, the banner appears exactly when the form is complete, and exactly when nothing is missing |
| PropertyForm.EmptyForm | app/models/property_form.py:65-93 | a fresh form has the four default fields (NOT_PROVIDED, no value), no additional fields and the flag unset; it is well formed, consistent and has no patterns |
| PropertyForm.ApplyUpdates | app/models/property_form.py:121-167 | any sequence of updates keeps the form well formed and its flag consistent, and never removes an additional field |
| PropertyForm.LastUpdateDecides | app/models/property_form.py:137-151 | after any sequence of updates, a required field holds the last value addressed to it, with the status its validation gives; a field no update addressed is unchanged |
| PropertyForm.FreshFormCompleteIffAllProvided | app/models/property_form.py:95-98 | starting from a fresh form, the form is complete exactly when each of the four required fields has received a value |
| PropertyForm.RequiredLine | app/models/property_form.py:187-192 | the line begins with the status marker, " **", the caption and "**: "; an INVALID value ends with " (Invalid)"; NOT_PROVIDED shows "Not provided"; otherwise the shown value follows "**: " |
| PropertyForm.DisplayName | app/models/property_form.py:198 | same length as the key; each underscore becomes a space; every other character is the key's character with at most its case changed; a letter that starts a word is not lower case and any other letter is not upper case |
| PropertyForm.Quoted | app/models/property_form.py:206 | each missing key is shown between backticks, in order |
| PropertyForm.FormData.IsComplete | app/models/property_form.py:95-98 | definition: every required field is VALID |
| PropertyForm.FormData.Consistent | app/models/property_form.py:100-103 | definition: the cached flag equals is_complete |
| PropertyForm.FormData.MissingAmong | app/models/property_form.py:115-117 | definition: the keys of the given required fields that are not VALID, in the given order |
| PropertyForm.FormData.MissingFields | app/models/property_form.py:105-119 | definition: MissingAmong over budget, total_size, real_estate_type, city |
| PropertyForm.FormData.StatusLine | app/models/property_form.py:202-207 | definition: the banner when the cached flag is set, otherwise "Waiting for: " and the back-quoted missing keys joined by ", " |
| PropertyForm.FormData.RequiredSection | app/models/property_form.py:178-192 | definition: the Required Fields header and the four required lines |
| PropertyForm.FormData.AdditionalSection | app/models/property_form.py:194-199 | definition: the Additional Fields header and one line per key in insertion order, or nothing when there are no additional fields |
| PropertyForm.FormData.SummaryLines | app/models/property_form.py:176-207 | definition: the required section, the additional section, the Form Status header and the status line |
| PropertyForm.FormData.Summary | app/models/property_form.py:209 | definition: the summary lines joined by newlines |
| PropertyForm.AdditionalLine | app/models/property_form.py:199 | definition: the pin marker, the display name in bold and the shown value |
| Text.Lower | app/agents/tools/tools.py:29 | same length; each character is lower-cased, ASCII only |
| Text.ReplaceChar | app/agents/tools/tools.py:29 | same length; each occurrence of the one character is replaced and every other character kept |
| Text.Title | app/models/property_form.py:198 | same length; non-letters kept; each letter is the input letter with at most its case changed; a letter that starts a word is not lower case, any other letter is not upper case |
| PropertyForm.PropertyFormModel.constructor | app/models/property_form.py:65-93 | a new form object holds the fresh form |
| PropertyForm.PropertyFormModel.FromData | app/utils/state_management.py:39 | validating a stored dump gives an object holding exactly that value |
| PropertyForm.PropertyFormModel.SetField | app/models/property_form.py:138-143 | assigning one required field changes that field only |
| PropertyForm.PropertyFormModel.IsComplete | app/models/property_form.py:95-98 | true exactly when the form value is complete |
| PropertyForm.PropertyFormModel.UpdateCompletionStatus | app/models/property_form.py:100-103 | only the flag changes, it becomes is_complete, and it is returned |
| PropertyForm.PropertyFormModel.GetMissingFields | app/models/property_form.py:105-119 | the loop returns the specified missing list |
| PropertyForm.PropertyFormModel.UpdateField | app/models/property_form.py:121-167 | the object's new state and the returned (success, message) pair are those of the specified update |
| PropertyForm.PropertyFormModel.RequiredFieldLines | app/models/property_form.py:178-192 | the loop builds the specified Required Fields section |
| PropertyForm.PropertyFormModel.AdditionalFieldLines | app/models/property_form.py:194-199 | the loop builds the specified Additional Fields section, empty when there are no additional fields |
| PropertyForm.PropertyFormModel.GetFieldsSummary | app/models/property_form.py:169-209 | the summary string is the specified one |
| Text.Join | app/models/property_form.py:209 | joining no parts gives the empty string; the result starts with the first part and ends with the last |
| StateManagement.Initialized | app/utils/state_management.py:12-23 | afterwards the form key is present; an existing form is never overwritten; a missing one becomes the fresh form; other keys are untouched |
| StateManagement.InitializeIdempotent | app/utils/state_management.py:12-23 | initialising twice is initialising once |
| StateManagement.LoadedForm | app/utils/state_management.py:25-39 | the loaded form is well formed; a stored form is returned as stored; with no stored form it is the fresh form; a consistent stored flag stays consistent |
| StateManagement.Saved | app/utils/state_management.py:41-50 | storing overwrites the form key and nothing else |
| StateManagement.SaveThenLoad | app/utils/state_management.py:41-50 | loading after storing a form returns that form, and loading after initialising returns the same form as loading |
| StateManagement.AfterFieldUpdate | app/utils/state_management.py:52-72 | the stored form becomes the updated form, the reported result is the update's, and other keys are untouched |
| StateManagement.FailedUpdateIsStored | app/utils/state_management.py:69-72 | a required field that fails validation is still stored with its value and status INVALID, and the failure reports the mismatch message |
| StateManagement.FieldUpdateKeepsInvariant | app/utils/state_management.py:52-72 | field updates keep the stored form well formed with a consistent flag |
| StateManagement.QueriesAgree | app/utils/state_management.py:74-120 | on any well-formed state, complete holds exactly when nothing is missing; when the stored flag is also consistent, complete holds exactly when the summary ends with the banner |
| StateManagement.InitializeFormInState | app/utils/state_management.py:12-23 | the new state is the initialised state |
| StateManagement.GetFormFromState | app/utils/state_management.py:25-39 | initialises the state and returns a fresh object holding the loaded form, which is the form now stored under the form key |
| StateManagement.UpdateFormInState | app/utils/state_management.py:41-50 | the new state is the old one with the form key overwritten |
| StateManagement.UpdateFieldInForm | app/utils/state_management.py:52-72 | the new state and the result are the specified field update's |
| StateManagement.IsFormComplete | app/utils/state_management.py:74-88 | initialises the state and returns whether the loaded form is complete |
| StateManagement.GetMissingFields | app/utils/state_management.py:90-104 | initialises the state and returns the loaded form's missing keys |
| StateManagement.GetFormSummary | app/utils/state_management.py:106-120 | initialises the state and returns the loaded form's summary |
| Tools.NormalizeFieldName | app/agents/tools/tools.py:29 | same length; every space becomes an underscore; every other character is lower-cased, so no space and no upper-case letter remain |
| Tools.NormalizeIdempotent | app/agents/tools/tools.py:29 | normalising a normalised name changes nothing |
| Tools.StandardFieldsAreRequired | app/agents/tools/tools.py:33-34 | a name is in the standard list exactly when it selects a required field of the form |
| Tools.ErrorText | app/agents/tools/tools.py:68 | a non-empty message is reported as is; a missing or empty one becomes "Validation failed" |
| Tools.CurrentValue | app/agents/tools/tools.py:37-45 | a standard name reads the required field's value, a known other name its additional entry's value, any other name nothing |
| Tools.Extract | app/agents/tools/tools.py:17-77 | the state after the tool is well formed |
| Tools.ExtractReportsNormalizedName | app/agents/tools/tools.py:49-77 | every reply carries the normalised name and the incoming value |
| Tools.UnchangedIffSameValue | app/agents/tools/tools.py:47-54 | the reply is "unchanged" exactly when the stored value equals the incoming one, and then the stored form is not modified |
| Tools.UnchangedEvenWhenInvalid | app/agents/tools/tools.py:40-54 | re-sending a value a required field holds as INVALID is "unchanged", not re-validated |
| Tools.NewNameIsAlwaysStored | app/agents/tools/tools.py:43-77 | a name that is neither standard nor known always succeeds as a non-standard field and is stored as a fresh additional entry |
| Tools.ErrorOnlyOnFailedValidation | app/agents/tools/tools.py:62-69 | the reply is "error" exactly when the value differs and the update's validation fails; this happens only for standard names, and the error is the mismatch message |
| Tools.SuccessFlagsStandardNames | app/agents/tools/tools.py:72-77 | a "success" reply flags a standard field exactly when the name is a required key |
| Tools.RepeatedExtractIsUnchanged | app/agents/tools/tools.py:17-77 | calling the tool again with the same name and value replies "unchanged" and leaves the state as the first call did |
| Tools.ExtractKeepsInvariant | app/agents/tools/tools.py:56-60 | the tool keeps the stored flag consistent; while no required field has a pattern it never replies "error" and no pattern appears |
| Tools.ExtractField | app/agents/tools/tools.py:17-77 | the reply and the new state are the specified ones |
| Tools.ValidationCount | app/agents/tools/tools.py:96 | the stored counter if there is one, else 0 |
| Tools.StatusOf | app/agents/tools/tools.py:92-106 | definition: the loaded form's completeness, missing keys and summary, and the stored counter |
| Tools.StatusAgrees | app/agents/tools/tools.py:92-106 | on any well-formed state the report is complete exactly when nothing is missing; on a consistent state, exactly when its summary ends with the banner; initialising does not change the counter |
| Tools.CheckFormStatus | app/agents/tools/tools.py:80-106 | only initialises the state and returns the specified report |

## Left out

- Logging (`LOG.debug`, `LOG.info`, `LOG.warning`) has no effect on results, so it is not modelled.
- Regular expressions are the `Matcher` parameter, so `re.compile` and `re.match` are not modelled. An invalid pattern would raise in the source; here every pattern is accepted.
- Pydantic's `model_dump` and `model_validate` are treated as the identity on `FormData`. Type coercion and schema errors are not modelled.
  - `StateManagement.GetFormFromState`, and every operation that loads the form, requires `WellFormedState`. Whatever is stored under `property_form` must be a well-formed form. The source would raise on foreign data there.
- `FormData.WellFormed` ties `additionalOrder` to the dictionary's keys. This stands in for Python's insertion-ordered dict, and `PropertyFormModel.UpdateField` requires it of the object.
- `str.lower`, `str.title` and `str.replace` are modelled on ASCII letters only. Python's Unicode case mapping is not modelled.
- Each `PropertyField` is held by value. The model does not capture aliasing between a field object and the form. The source never shares field objects between forms.
- `PropertyFormModel.GetFieldsSummary` builds its sections through the helper methods `RequiredFieldLines` and `AdditionalFieldLines`. The source has one loop body per section inside `get_fields_summary`.
- `Tools.Extract` states only that the state stays well formed. What it replies is stated by the lemmas after it and by `Tools.ExtractField`.
- `Tools.ValidationCount` returns whatever value is stored under `form_validation_count`. The source does not check its type.
- The ADK runtime, the agents that call these tools, the web front end, `main.py` and the settings are not part of this model.

Every validation failure carries the mismatch message, so the `'Validation failed'` fallback in `extract_field` is never reached (`Tools.ErrorOnlyOnFailedValidation`).
