/** The property search form: four required fields with a validation status
    each, an insertion-ordered map of free-form additional fields that only
    grows, and a cached completion flag.

    `FormData` is the form as a value (what the session state stores); its ghost
    members are the specification. `PropertyFormModel` is the mutable object the
    operations work on in place; its methods are proved against `FormData`. */
module PropertyForm {
  import opened Optional
  import Text

  datatype FieldStatus = NotProvided | Invalid | Valid

  /** Whether a regular expression (first argument) matches a value (second
      argument) from its first character. Regular expressions are not modelled:
      every operation that validates receives the matcher as a parameter. */
  type Matcher = (string, string) -> bool

  /** The one message a failed validation reports. */
  const PatternMismatch := "The value does not match the expected pattern for this field."

  /** The `(is_valid, error_message)` pair that validation and updates return. */
  datatype Check = Check(ok: bool, error: Option<string>)

  datatype PropertyField = PropertyField(
    status: FieldStatus,
    value: Option<string>,
    description: string,
    examples: seq<string>,
    validationPattern: Option<string>)
  {
    /** Python's truthiness test `self.validation_pattern and value`. */
    predicate AppliesPattern(v: string) {
      validationPattern.Some? && validationPattern.value != "" && v != ""
    }

    /** Validation is a pure check: no pattern, an empty pattern or an empty
        value always pass; otherwise the pattern must match from the start,
        and a mismatch reports the fixed message. */
    function ValidateValue(v: string, matches: Matcher): (c: Check)
      ensures !AppliesPattern(v) ==> c == Check(true, None)
      ensures AppliesPattern(v) ==> (c.ok <==> matches(validationPattern.value, v))
      ensures c.ok <==> c.error == None
      ensures !c.ok ==> c.error == Some(PatternMismatch)
    {
      if AppliesPattern(v) && !matches(validationPattern.value, v) then
        Check(false, Some(PatternMismatch))
      else
        Check(true, None)
    }
  }

  /** The four required fields, in declaration order. */
  datatype RequiredName = Budget | TotalSize | RealEstateType | City {

    /** The exact attribute name that selects the field. */
    function Key(): string {
      match this
      case Budget => "budget"
      case TotalSize => "total_size"
      case RealEstateType => "real_estate_type"
      case City => "city"
    }

    /** The name the summary shows. */
    function Label(): string {
      match this
      case Budget => "Budget"
      case TotalSize => "Total Size"
      case RealEstateType => "Real Estate Type"
      case City => "City"
    }
  }

  const RequiredOrder: seq<RequiredName> := [Budget, TotalSize, RealEstateType, City]

  /** Routes a name to a required field by exact, case-sensitive comparison;
      every other string (near-misses included) is not a required name. */
  function ParseRequired(name: string): (r: Option<RequiredName>)
    ensures r.Some? ==> r.value.Key() == name
    ensures r.None? <==> forall n: RequiredName :: n.Key() != name
  {
    if name == "budget" then Some(Budget)
    else if name == "total_size" then Some(TotalSize)
    else if name == "real_estate_type" then Some(RealEstateType)
    else if name == "city" then Some(City)
    else None
  }

  /** Distinct required fields have distinct keys. */
  lemma KeysDistinct(n: RequiredName)
    ensures forall m: RequiredName :: m != n ==> m.Key() != n.Key()
  {
    forall m: RequiredName | m != n ensures m.Key() != n.Key() {
      assert ParseRequired(m.Key()) == Some(m);
    }
  }

  /** The field a fresh form holds for `n`: not provided, no value, no pattern. */
  function DefaultField(n: RequiredName): (f: PropertyField)
    ensures f.status == NotProvided && f.value == None && f.validationPattern == None
  {
    match n
    case Budget =>
      PropertyField(NotProvided, None, "Budget for the property (e.g., 20,000 USD)",
                    ["I have a budget of 20,000 USD", "My budget is 50,000 dollars"], None)
    case TotalSize =>
      PropertyField(NotProvided, None, "Total size requirement (e.g., 500m²)",
                    ["I need 500m²", "I'm looking for 300 square meters"], None)
    case RealEstateType =>
      PropertyField(NotProvided, None, "Type of real estate (e.g., office, retail, warehouse)",
                    ["I am looking for an office space", "I need a retail location"], None)
    case City =>
      PropertyField(NotProvided, None, "City location (e.g., Mexico City)",
                    ["I want a property in Mexico City", "Looking in Barcelona"], None)
  }

  /** The entry created the first time an additional field is mentioned. */
  function NewAdditionalField(name: string, value: string): (f: PropertyField)
    ensures f.status == Valid && f.value == Some(value) && f.validationPattern == None
    ensures f.description == "Additional field: " + name && f.examples == [value]
  {
    PropertyField(Valid, Some(value), "Additional field: " + name, [value], None)
  }

  /** The result of an update: the new form and the check it reported. */
  datatype UpdateResult = UpdateResult(form: FormData, check: Check)

  // Fixed pieces of the Markdown summary.
  const RequiredHeader := "### Required Fields"
  const AdditionalHeader := "\n### Additional Fields"
  const StatusHeader := "\n### Form Status"
  const CompleteBanner := "✅ All required fields are complete!"
  const WaitingPrefix := "⬜ Waiting for: "

  /** The form as a value. `additionalOrder` lists the keys of
      `additionalFields` in insertion order (Python dicts iterate that way). */
  datatype FormData = FormData(
    budget: PropertyField,
    totalSize: PropertyField,
    realEstateType: PropertyField,
    city: PropertyField,
    additionalFields: map<string, PropertyField>,
    additionalOrder: seq<string>,
    formComplete: bool)
  {
    function Field(n: RequiredName): PropertyField {
      match n
      case Budget => budget
      case TotalSize => totalSize
      case RealEstateType => realEstateType
      case City => city
    }

    function WithField(n: RequiredName, f: PropertyField): (d: FormData)
      ensures d.Field(n) == f
      ensures forall m: RequiredName :: m != n ==> d.Field(m) == Field(m)
      ensures d.additionalFields == additionalFields && d.additionalOrder == additionalOrder
      ensures d.formComplete == formComplete
    {
      match n
      case Budget => this.(budget := f)
      case TotalSize => this.(totalSize := f)
      case RealEstateType => this.(realEstateType := f)
      case City => this.(city := f)
    }

    /** The key order lists every key of the map, each once: as many entries as
        keys, and the same set. */
    ghost predicate WellFormed() {
      && |additionalOrder| == |additionalFields|
      && additionalFields.Keys == set k | k in additionalOrder
    }

    ghost predicate IsComplete() {
      forall n: RequiredName :: Field(n).status == Valid
    }

    /** Completeness spelled out field by field, as `is_complete` lists them. */
    lemma IsCompleteFieldByField()
      ensures IsComplete() <==>
                budget.status == Valid && totalSize.status == Valid
                && realEstateType.status == Valid && city.status == Valid
    {
      assert Field(Budget) == budget && Field(TotalSize) == totalSize;
      assert Field(RealEstateType) == realEstateType && Field(City) == city;
      if budget.status == Valid && totalSize.status == Valid
         && realEstateType.status == Valid && city.status == Valid {
        forall n: RequiredName ensures Field(n).status == Valid {
          match n
          case Budget =>
          case TotalSize =>
          case RealEstateType =>
          case City =>
        }
      }
    }

    /** The cached flag agrees with the statuses. */
    ghost predicate Consistent() {
      formComplete == IsComplete()
    }

    /** No required field carries a validation pattern. */
    ghost predicate PatternsAbsent() {
      forall n: RequiredName :: Field(n).validationPattern == None
    }

    /** Keys of the fields among `names` whose status is not VALID, in the order of `names`. */
    ghost function MissingAmong(names: seq<RequiredName>): seq<string> {
      if names == [] then []
      else
        var n := names[|names| - 1];
        MissingAmong(names[..|names| - 1]) + if Field(n).status != Valid then [n.Key()] else []
    }

    ghost function MissingFields(): seq<string> {
      MissingAmong(RequiredOrder)
    }

    /** Adding a new key to the map and appending it to the order keeps the
        two in step. */
    lemma AppendKeepsWellFormed(name: string, f: PropertyField)
      requires WellFormed() && name !in additionalFields
      ensures this.(additionalFields := additionalFields[name := f],
                    additionalOrder := additionalOrder + [name]).WellFormed()
    {
      var keys := additionalFields[name := f].Keys;
      assert keys == additionalFields.Keys + {name};
      assert (set k | k in additionalOrder + [name]) == (set k | k in additionalOrder) + {name};
    }

    /** `update_field`: a required name is validated and stored whether or not
        it passed, and the flag is recomputed; any other name is stored as
        VALID without validation. */
    ghost function Update(name: string, value: string, matches: Matcher): (u: UpdateResult)
      requires WellFormed()
      ensures u.form.WellFormed()
      // additional entries are never removed and keep their insertion order
      ensures additionalFields.Keys <= u.form.additionalFields.Keys
      ensures additionalOrder <= u.form.additionalOrder
      // nothing but the named field (and the flag) changes
      ensures forall n: RequiredName :: n.Key() != name ==> u.form.Field(n) == Field(n)
      ensures forall k :: k in additionalFields && k != name ==>
                u.form.additionalFields[k] == additionalFields[k]
    {
      match ParseRequired(name)
      case Some(n) =>
        var c := Field(n).ValidateValue(value, matches);
        var stored := WithField(n, Field(n).(value := Some(value), status := if c.ok then Valid else Invalid));
        UpdateResult(stored.(formComplete := stored.IsComplete()), c)
      case None =>
        if name !in additionalFields then
          var d := this.(additionalFields := additionalFields[name := NewAdditionalField(name, value)],
                         additionalOrder := additionalOrder + [name]);
          AppendKeepsWellFormed(name, NewAdditionalField(name, value));
          UpdateResult(d, Check(true, None))
        else
          var d := this.(additionalFields := additionalFields[name := additionalFields[name].(value := Some(value), status := Valid)]);
          UpdateResult(d, Check(true, None))
    }

    /** A required name: the value is stored even when it fails validation,
        the status follows the validation, the check is returned unchanged
        and the flag is recomputed. */
    lemma UpdateRequiredField(name: string, value: string, matches: Matcher)
      requires WellFormed() && ParseRequired(name).Some?
      ensures var n := ParseRequired(name).value;
              var u := Update(name, value, matches);
              && u.check == Field(n).ValidateValue(value, matches)
              && u.form.Field(n).value == Some(value)
              && u.form.Field(n).status == (if u.check.ok then Valid else Invalid)
              && u.form.Field(n).description == Field(n).description
              && u.form.Field(n).examples == Field(n).examples
              && u.form.Field(n).validationPattern == Field(n).validationPattern
              && u.form.additionalFields == additionalFields
              && u.form.additionalOrder == additionalOrder
              && u.form.Consistent()
    {
    }

    /** One update, seen from one required field: the field takes the value
        and its validation status when the update names it, and is otherwise
        unchanged. */
    lemma UpdateStep(name: string, value: string, matches: Matcher, n: RequiredName)
      requires WellFormed()
      ensures Update(name, value, matches).form.Field(n) ==
                if name == n.Key() then
                  Field(n).(value := Some(value),
                            status := if Field(n).ValidateValue(value, matches).ok then Valid else Invalid)
                else Field(n)
    {
      if name == n.Key() {
        assert ParseRequired(name) == Some(n);
        UpdateRequiredField(name, value, matches);
      }
    }

    /** Any other name is always accepted and stored as VALID; a new name gets
        a fresh entry at the end of the order, an existing one keeps its
        description and examples. */
    lemma UpdateAdditionalField(name: string, value: string, matches: Matcher)
      requires WellFormed() && ParseRequired(name).None?
      ensures var u := Update(name, value, matches);
              && u.check == Check(true, None)
              && (forall n: RequiredName :: u.form.Field(n) == Field(n))
              && u.form.formComplete == formComplete
              && name in u.form.additionalFields
              && u.form.additionalFields[name].value == Some(value)
              && u.form.additionalFields[name].status == Valid
              && (name !in additionalFields ==>
                    && u.form.additionalFields[name] == NewAdditionalField(name, value)
                    && u.form.additionalOrder == additionalOrder + [name])
              && (name in additionalFields ==>
                    && u.form.additionalFields[name] == additionalFields[name].(value := Some(value), status := Valid)
                    && u.form.additionalOrder == additionalOrder)
    {
    }

    /** `form_complete == is_complete()` before an update implies it after:
        the required path recomputes the flag, the other path touches no
        required field. */
    lemma UpdateKeepsConsistent(name: string, value: string, matches: Matcher)
      requires WellFormed() && Consistent()
      ensures Update(name, value, matches).form.Consistent()
    {
      if ParseRequired(name).Some? {
        UpdateRequiredField(name, value, matches);
      } else {
        UpdateAdditionalField(name, value, matches);
      }
    }

    /** Repeating an update changes nothing more and reports the same check. */
    lemma {:induction false} UpdateIdempotent(name: string, value: string, matches: Matcher)
      requires WellFormed()
      ensures var once := Update(name, value, matches);
              once.form.Update(name, value, matches) == once
    {
      var once := Update(name, value, matches);
      var twice := once.form.Update(name, value, matches);
      match ParseRequired(name)
      case Some(n) =>
        UpdateRequiredField(name, value, matches);
        once.form.UpdateRequiredField(name, value, matches);
        assert twice.form.Field(n) == once.form.Field(n);
        assert twice.form == once.form.WithField(n, once.form.Field(n)).(formComplete := twice.form.formComplete);
      case None =>
        UpdateAdditionalField(name, value, matches);
        once.form.UpdateAdditionalField(name, value, matches);
        assert twice.form.additionalFields == once.form.additionalFields;
    }

    /** With no pattern on any required field, updates keep it that way and
        never fail: from a fresh form, validation cannot reject a value. */
    lemma UpdateWithoutPatterns(name: string, value: string, matches: Matcher)
      requires WellFormed() && PatternsAbsent()
      ensures Update(name, value, matches).form.PatternsAbsent()
      ensures Update(name, value, matches).check == Check(true, None)
    {
      if ParseRequired(name).Some? {
        UpdateRequiredField(name, value, matches);
      } else {
        UpdateAdditionalField(name, value, matches);
      }
    }

    /** `get_missing_fields` spelled out: the keys of the non-VALID required
        fields, in the order budget, total_size, real_estate_type, city. */
    lemma MissingFieldsInOrder()
      ensures MissingFields() ==
                (if budget.status != Valid then ["budget"] else [])
                + (if totalSize.status != Valid then ["total_size"] else [])
                + (if realEstateType.status != Valid then ["real_estate_type"] else [])
                + (if city.status != Valid then ["city"] else [])
    {
      var one, two, three := [Budget], [Budget, TotalSize], [Budget, TotalSize, RealEstateType];
      assert one[..0] == [] && two[..1] == one && three[..2] == two && RequiredOrder[..3] == three;
      assert MissingAmong(one) == if budget.status != Valid then ["budget"] else [];
      assert MissingAmong(two) == MissingAmong(one) + if totalSize.status != Valid then ["total_size"] else [];
      assert MissingAmong(three) == MissingAmong(two)
                                    + if realEstateType.status != Valid then ["real_estate_type"] else [];
    }

    /** A required key is listed as missing exactly when its field is not
        VALID, only required keys are listed, and the list is empty exactly
        when the form is complete. */
    lemma MissingFieldsExact()
      ensures forall n: RequiredName :: n.Key() in MissingFields() <==> Field(n).status != Valid
      ensures forall x :: x in MissingFields() ==> ParseRequired(x).Some?
      ensures MissingFields() == [] <==> IsComplete()
    {
      MissingFieldsInOrder();
      IsCompleteFieldByField();
      var m := MissingFields();
      forall n: RequiredName ensures n.Key() in m <==> Field(n).status != Valid {
        KeysDistinct(n);
      }
    }

    /** One rendered line per required field of `names`, in that order. */
    ghost function RequiredLines(names: seq<RequiredName>): seq<string> {
      seq(|names|, i requires 0 <= i < |names| => RequiredLine(names[i].Label(), Field(names[i])))
    }

    /** One rendered line per key of `keys`, in that order. */
    ghost function AdditionalLines(keys: seq<string>): seq<string>
      requires forall k :: k in keys ==> k in additionalFields
    {
      seq(|keys|, i requires 0 <= i < |keys| => AdditionalLine(keys[i], additionalFields[keys[i]]))
    }

    /** The last line: the banner when the cached flag is set, otherwise the
        missing names recomputed from the statuses. */
    ghost function StatusLine(): string {
      if formComplete then CompleteBanner
      else WaitingPrefix + Text.Join(Quoted(MissingFields()), ", ")
    }

    ghost function RequiredSection(): seq<string> {
      [RequiredHeader] + RequiredLines(RequiredOrder)
    }

    /** Present only when there is at least one additional field. */
    ghost function AdditionalSection(): seq<string>
      requires WellFormed()
    {
      if |additionalFields| > 0 then [AdditionalHeader] + AdditionalLines(additionalOrder) else []
    }

    /** The lines of `get_fields_summary`, before they are joined. */
    ghost function SummaryLines(): seq<string>
      requires WellFormed()
    {
      RequiredSection() + AdditionalSection() + [StatusHeader, StatusLine()]
    }

    /** `get_fields_summary`: the lines joined by newlines. */
    ghost function Summary(): string
      requires WellFormed()
    {
      Text.Join(SummaryLines(), "\n")
    }

    /** The summary's line layout: the "Required Fields" header, one line per
        required field in fixed order marked by its status, the "Additional
        Fields" section exactly when there are additional fields, then the
        "Form Status" header and the status line. */
    lemma SummaryLayout()
      requires WellFormed()
      ensures var lines := SummaryLines();
              && |lines| == 7 + (if |additionalFields| > 0 then 1 + |additionalOrder| else 0)
              && lines[0] == RequiredHeader
              && (forall i :: 0 <= i < 4 ==>
                    lines[1 + i] == RequiredLine(RequiredOrder[i].Label(), Field(RequiredOrder[i])))
              && (|additionalFields| > 0 <==> lines[5] == AdditionalHeader)
              && (|additionalFields| > 0 ==> forall i :: 0 <= i < |additionalOrder| ==>
                    lines[6 + i] == AdditionalLine(additionalOrder[i], additionalFields[additionalOrder[i]]))
              && lines[|lines| - 2] == StatusHeader
              && lines[|lines| - 1] == StatusLine()
    {
      var req, add := RequiredSection(), AdditionalSection();
      RequiredSectionLayout();
      AdditionalSectionLayout();
      SectionsLayout(req, add, StatusHeader, StatusLine());
      if |additionalFields| == 0 {
        assert StatusHeader[5] != AdditionalHeader[5];
      }
    }

    lemma RequiredSectionLayout()
      ensures |RequiredSection()| == 5 && RequiredSection()[0] == RequiredHeader
      ensures forall i :: 0 <= i < 4 ==>
                RequiredSection()[1 + i] == RequiredLine(RequiredOrder[i].Label(), Field(RequiredOrder[i]))
    {
    }

    lemma AdditionalSectionLayout()
      requires WellFormed()
      ensures |AdditionalSection()| == if |additionalFields| > 0 then 1 + |additionalOrder| else 0
      ensures |additionalFields| > 0 ==>
                && AdditionalSection()[0] == AdditionalHeader
                && forall i :: 0 <= i < |additionalOrder| ==>
                     AdditionalSection()[1 + i] == AdditionalLine(additionalOrder[i], additionalFields[additionalOrder[i]])
    {
    }

    /** The summary ends with the completion banner exactly when the cached
        flag is set; otherwise its last line is "Waiting for:" and the
        missing keys. */
    lemma SummaryBanner()
      requires WellFormed()
      ensures Text.EndsWith(Summary(), CompleteBanner) <==> formComplete
      ensures !formComplete ==>
                Text.EndsWith(Summary(), WaitingPrefix + Text.Join(Quoted(MissingFields()), ", "))
    {
      var lines := SummaryLines();
      assert lines[|lines| - 1] == StatusLine();
      assert Text.EndsWith(Summary(), StatusLine());
      if !formComplete {
        WaitingLineIsNotBanner(Summary(), MissingFields());
      }
    }

    /** When the flag is consistent, the summary shows the banner exactly when
        the form is complete, that is, when nothing is missing. */
    lemma SummaryShowsCompletion()
      requires WellFormed() && Consistent()
      ensures Text.EndsWith(Summary(), CompleteBanner) <==> IsComplete()
      ensures Text.EndsWith(Summary(), CompleteBanner) <==> MissingFields() == []
    {
      SummaryBanner();
      MissingFieldsExact();
    }
  }

  /** A text that ends with a "Waiting for:" line does not end with the
      banner: the waiting line ends with a backtick or a space, the banner
      with '!'. */
  lemma WaitingLineIsNotBanner(s: string, missing: seq<string>)
    requires Text.EndsWith(s, WaitingPrefix + Text.Join(Quoted(missing), ", "))
    ensures !Text.EndsWith(s, CompleteBanner)
  {
    var joined := Text.Join(Quoted(missing), ", ");
    var last := WaitingPrefix + joined;
    assert last[|last| - 1] == '`' || last[|last| - 1] == ' ' by {
      if Quoted(missing) != [] {
        var q := Quoted(missing);
        assert Text.EndsWith(joined, q[|q| - 1]);
      }
    }
    assert s[|s| - 1] == last[|last| - 1];
    assert CompleteBanner[|CompleteBanner| - 1] == '!';
  }

  /** Where the pieces of `req + add + [header, last]` land. */
  lemma SectionsLayout(req: seq<string>, add: seq<string>, header: string, last: string)
    requires |req| == 5
    ensures var lines := req + add + [header, last];
            && |lines| == 7 + |add|
            && (forall i :: 0 <= i < 5 ==> lines[i] == req[i])
            && (forall i :: 0 <= i < |add| ==> lines[5 + i] == add[i])
            && (add == [] ==> lines[5] == header)
            && lines[|lines| - 2] == header
            && lines[|lines| - 1] == last
  {
  }

  /** A fresh form: every required field NOT_PROVIDED with no value, no
      additional fields, not complete. */
  function EmptyForm(): (d: FormData)
    ensures forall n: RequiredName :: d.Field(n) == DefaultField(n)
    ensures forall n: RequiredName :: d.Field(n).status == NotProvided && d.Field(n).value == None
    ensures d.additionalFields == map[] && d.additionalOrder == [] && !d.formComplete
    ensures d.WellFormed() && d.Consistent() && d.PatternsAbsent()
  {
    var d := FormData(DefaultField(Budget), DefaultField(TotalSize), DefaultField(RealEstateType),
                      DefaultField(City), map[], [], false);
    assert d.Field(Budget).status != Valid;
    d
  }

  /** The form after a sequence of `update_field` calls, oldest first. */
  ghost function ApplyUpdates(d: FormData, updates: seq<(string, string)>, matches: Matcher): (r: FormData)
    requires d.WellFormed()
    ensures r.WellFormed()
    ensures d.Consistent() ==> r.Consistent()
    ensures d.additionalFields.Keys <= r.additionalFields.Keys
  {
    if updates == [] then d
    else
      var prev := ApplyUpdates(d, updates[..|updates| - 1], matches);
      var (name, value) := updates[|updates| - 1];
      assert d.Consistent() ==> prev.Update(name, value, matches).form.Consistent() by {
        if d.Consistent() {
          prev.UpdateKeepsConsistent(name, value, matches);
        }
      }
      prev.Update(name, value, matches).form
  }

  /** The value of the last update in `updates` addressed to `key`, if any. */
  ghost function LastValueFor(updates: seq<(string, string)>, key: string): Option<string> {
    if updates == [] then None
    else if updates[|updates| - 1].0 == key then Some(updates[|updates| - 1].1)
    else LastValueFor(updates[..|updates| - 1], key)
  }

  /** After any sequence of updates, a required field holds the value of the
      last update addressed to it, with the status that value's validation
      gives; a field no update addressed is unchanged. */
  lemma {:induction false} LastUpdateDecides(d: FormData, updates: seq<(string, string)>, matches: Matcher,
                                             n: RequiredName)
    requires d.WellFormed()
    ensures var f := ApplyUpdates(d, updates, matches).Field(n);
            match LastValueFor(updates, n.Key())
            case None => f == d.Field(n)
            case Some(v) =>
              f == d.Field(n).(value := Some(v),
                               status := if d.Field(n).ValidateValue(v, matches).ok then Valid else Invalid)
  {
    if updates != [] {
      var prefix := updates[..|updates| - 1];
      var (name, value) := updates[|updates| - 1];
      LastUpdateDecides(d, prefix, matches, n);
      var prev := ApplyUpdates(d, prefix, matches);
      assert ApplyUpdates(d, updates, matches) == prev.Update(name, value, matches).form;
      prev.UpdateStep(name, value, matches, n);
    }
  }

  /** Starting from a fresh form, the flag stays consistent and the form is
      complete exactly when every required field has received a value: no
      field carries a pattern, so no value is rejected. */
  lemma FreshFormCompleteIffAllProvided(updates: seq<(string, string)>, matches: Matcher)
    ensures ApplyUpdates(EmptyForm(), updates, matches).Consistent()
    ensures ApplyUpdates(EmptyForm(), updates, matches).IsComplete()
            <==> forall n: RequiredName :: LastValueFor(updates, n.Key()).Some?
  {
    var r := ApplyUpdates(EmptyForm(), updates, matches);
    forall n: RequiredName
      ensures r.Field(n).status == Valid <==> LastValueFor(updates, n.Key()).Some?
    {
      LastUpdateDecides(EmptyForm(), updates, matches, n);
    }
  }

  /** How Python's f-string shows an optional value. */
  function ShowValue(v: Option<string>): string {
    match v
    case Some(s) => s
    case None => "None"
  }

  function Marker(s: FieldStatus): char {
    match s
    case Valid => '✅'
    case Invalid => '❌'
    case NotProvided => '⬜'
  }

  /** One required-field line: its marker tells the status; an invalid value is
      shown with "(Invalid)", a missing one as "Not provided". */
  function RequiredLine(caption: string, f: PropertyField): (line: string)
    ensures |line| > 0 && line[0] == Marker(f.status)
    ensures |caption| + 8 <= |line| && line[..|caption| + 8] == [Marker(f.status)] + " **" + caption + "**: "
    ensures f.status == Invalid ==> Text.EndsWith(line, " (Invalid)")
    ensures f.status == NotProvided ==> Text.EndsWith(line, "Not provided")
    ensures f.status != NotProvided ==> Text.EndsWith(line[..|line| - if f.status == Invalid then 10 else 0],
                                                      "**: " + ShowValue(f.value))
  {
    var prefix := [Marker(f.status)] + " **" + caption + "**: ";
    match f.status
    case Valid => prefix + ShowValue(f.value)
    case Invalid =>
      var line := prefix + ShowValue(f.value) + " (Invalid)";
      assert line[..|line| - 10] == prefix + ShowValue(f.value);
      line
    case NotProvided => prefix + "Not provided"
  }

  /** The shown name of an additional field: underscores become spaces, then
      title case. */
  function DisplayName(name: string): (r: string)
    ensures |r| == |name|
    ensures forall i :: 0 <= i < |r| ==> r[i] != '_'
    ensures forall i :: 0 <= i < |name| && name[i] == '_' ==> r[i] == ' '
    ensures forall i :: 0 <= i < |name| && name[i] != '_' ==> Text.LowerChar(r[i]) == Text.LowerChar(name[i])
    ensures forall i :: 0 <= i < |name| && Text.IsLetter(name[i]) && (i == 0 || !Text.IsLetter(name[i - 1])) ==> !Text.IsLower(r[i])
    ensures forall i :: 0 < i < |name| && Text.IsLetter(name[i]) && Text.IsLetter(name[i - 1]) ==> !Text.IsUpper(r[i])
  {
    var spaced := Text.ReplaceChar(name, '_', ' ');
    assert forall i :: 0 <= i < |name| ==> (Text.IsLetter(spaced[i]) <==> Text.IsLetter(name[i]));
    Text.Title(spaced)
  }

  function AdditionalLine(name: string, f: PropertyField): string {
    "📌 **" + DisplayName(name) + "**: " + ShowValue(f.value)
  }

  /** Each name between backticks. */
  function Quoted(names: seq<string>): (r: seq<string>)
    ensures |r| == |names|
    ensures forall i :: 0 <= i < |names| ==> r[i] == "`" + names[i] + "`"
  {
    seq(|names|, i requires 0 <= i < |names| => "`" + names[i] + "`")
  }

  /** The mutable form object. Its fields are those of `FormData`. */
  class PropertyFormModel {
    var budget: PropertyField
    var totalSize: PropertyField
    var realEstateType: PropertyField
    var city: PropertyField
    var additionalFields: map<string, PropertyField>
    var additionalOrder: seq<string>
    var formComplete: bool

    /** `model_dump`: the object's state as a value. */
    function Dump(): FormData
      reads this
    {
      FormData(budget, totalSize, realEstateType, city, additionalFields, additionalOrder, formComplete)
    }

    ghost predicate WellFormed()
      reads this
    {
      Dump().WellFormed()
    }

    /** A fresh form with the default required fields. */
    constructor ()
      ensures WellFormed() && Dump() == EmptyForm()
    {
      budget := DefaultField(Budget);
      totalSize := DefaultField(TotalSize);
      realEstateType := DefaultField(RealEstateType);
      city := DefaultField(City);
      additionalFields := map[];
      additionalOrder := [];
      formComplete := false;
    }

    /** `model_validate`: an object holding exactly the stored value. */
    constructor FromData(d: FormData)
      requires d.WellFormed()
      ensures WellFormed() && Dump() == d
    {
      budget := d.budget;
      totalSize := d.totalSize;
      realEstateType := d.realEstateType;
      city := d.city;
      additionalFields := d.additionalFields;
      additionalOrder := d.additionalOrder;
      formComplete := d.formComplete;
    }

    function Field(n: RequiredName): PropertyField
      reads this
    {
      match n
      case Budget => budget
      case TotalSize => totalSize
      case RealEstateType => realEstateType
      case City => city
    }

    method SetField(n: RequiredName, f: PropertyField)
      modifies this
      ensures Dump() == old(Dump()).WithField(n, f)
    {
      match n
      case Budget => budget := f;
      case TotalSize => totalSize := f;
      case RealEstateType => realEstateType := f;
      case City => city := f;
    }

    /** All four required fields are VALID. */
    function IsComplete(): (b: bool)
      reads this
      ensures b <==> Dump().IsComplete()
    {
      Dump().IsCompleteFieldByField();
      budget.status == Valid && totalSize.status == Valid
      && realEstateType.status == Valid && city.status == Valid
    }

    /** Recomputes the cached flag; nothing else changes. */
    method UpdateCompletionStatus() returns (complete: bool)
      modifies this
      ensures Dump() == old(Dump()).(formComplete := old(Dump()).IsComplete())
      ensures Dump().Consistent()
      ensures complete == formComplete
    {
      formComplete := IsComplete();
      complete := formComplete;
      Dump().IsCompleteFieldByField();
    }

    method GetMissingFields() returns (missing: seq<string>)
      ensures missing == Dump().MissingFields()
    {
      missing := [];
      for i := 0 to |RequiredOrder|
        invariant missing == Dump().MissingAmong(RequiredOrder[..i])
      {
        var name := RequiredOrder[i];
        if Field(name).status != Valid {
          missing := missing + [name.Key()];
        }
        assert RequiredOrder[..i + 1][..i] == RequiredOrder[..i];
      }
      assert RequiredOrder[..|RequiredOrder|] == RequiredOrder;
    }

    method UpdateField(name: string, value: string, matches: Matcher) returns (c: Check)
      requires WellFormed()
      modifies this
      ensures WellFormed()
      ensures Dump() == old(Dump()).Update(name, value, matches).form
      ensures c == old(Dump()).Update(name, value, matches).check
    {
      match ParseRequired(name)
      case Some(n) =>
        var field := Field(n);
        c := field.ValidateValue(value, matches);
        field := field.(value := Some(value), status := if c.ok then Valid else Invalid);
        SetField(n, field);
        var _ := UpdateCompletionStatus();
      case None =>
        if name !in additionalFields {
          additionalFields := additionalFields[name := NewAdditionalField(name, value)];
          additionalOrder := additionalOrder + [name];
        } else {
          additionalFields := additionalFields[name := additionalFields[name].(value := Some(value), status := Valid)];
        }
        c := Check(true, None);
    }

    /** The "Required Fields" section: one line per required field, in order. */
    method RequiredFieldLines() returns (lines: seq<string>)
      ensures lines == Dump().RequiredSection()
    {
      ghost var d := Dump();
      lines := [RequiredHeader];
      for i := 0 to |RequiredOrder|
        invariant lines == [RequiredHeader] + d.RequiredLines(RequiredOrder[..i])
      {
        var name := RequiredOrder[i];
        lines := lines + [RequiredLine(name.Label(), Field(name))];
        assert RequiredOrder[..i + 1][..i] == RequiredOrder[..i];
      }
      assert RequiredOrder[..|RequiredOrder|] == RequiredOrder;
    }

    /** The "Additional Fields" section, in insertion order; empty when there
        are no additional fields. */
    method AdditionalFieldLines() returns (lines: seq<string>)
      requires WellFormed()
      ensures lines == Dump().AdditionalSection()
    {
      ghost var d := Dump();
      lines := [];
      if |additionalFields| > 0 {
        lines := [AdditionalHeader];
        for i := 0 to |additionalOrder|
          invariant lines == [AdditionalHeader] + d.AdditionalLines(additionalOrder[..i])
        {
          var key := additionalOrder[i];
          lines := lines + [AdditionalLine(key, additionalFields[key])];
          assert additionalOrder[..i + 1][..i] == additionalOrder[..i];
        }
        assert additionalOrder[..|additionalOrder|] == additionalOrder;
      }
    }

    method GetFieldsSummary() returns (summary: string)
      requires WellFormed()
      ensures summary == Dump().Summary()
    {
      ghost var d := Dump();
      var lines := RequiredFieldLines();
      var additional := AdditionalFieldLines();
      lines := lines + additional + [StatusHeader];
      if formComplete {
        lines := lines + [CompleteBanner];
      } else {
        var missing := GetMissingFields();
        lines := lines + [WaitingPrefix + Text.Join(Quoted(missing), ", ")];
      }
      assert lines == d.RequiredSection() + d.AdditionalSection() + [StatusHeader, d.StatusLine()];
      summary := Text.Join(lines, "\n");
    }
  }
}
