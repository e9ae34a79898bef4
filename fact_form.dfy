/** The fact form: the fields it opens with, and its submit handler, which
    checks the name and builds the fact to add or to merge into the edited
    one. */
module FactForm {
  import opened Wrappers
  import opened Types
  import Text
  import Validators

  /** The form's text fields and type selector. */
  datatype FactFields = FactFields(name: string, factType: FactType, defaultText: string, description: string)

  /** The fields on opening: those of the edited fact, or blank with type
      `string` for a new one. */
  function OpenForm(initialData: Option<FactDefinition>, stringify: Json -> string, numberText: real -> string): FactFields {
    match initialData
    case None => FactFields("", StringFact, "", "")
    case Some(f) =>
      FactFields(f.name, f.factType,
                 Validators.FormatValueForDisplay(f.defaultValue, f.factType, stringify, numberText),
                 if f.description.Some? then f.description.value else "")
  }

  /** `text.trim() || undefined`. */
  function TrimmedOrAbsent(text: string): Option<string> {
    if Text.Trim(text) == "" then None else Some(Text.Trim(text))
  }

  /** `initialData?.name`. */
  function InitialName(initialData: Option<FactDefinition>): Option<string> {
    if initialData.Some? then Some(initialData.value.name) else None
  }

  /** The three name checks of `handleSubmit`, in order: blank after
      trimming, the pattern on the untrimmed text, a case-insensitive clash
      with an existing name other than the edited fact's. */
  function NameCheck(name: string, existingNames: seq<string>, initialData: Option<FactDefinition>): Option<Validators.NameError> {
    if Text.Trim(name) == "" then Some(Validators.NameRequired)
    else if !Text.IsFactNameFormat(name) then Some(Validators.NameFormat)
    else if Validators.IsDuplicate(name, existingNames, InitialName(initialData)) then Some(Validators.NameTaken)
    else None
  }

  /** The fact `handleSubmit` builds from the fields; a blank default text
      gives no default value. */
  function BuildFact(form: FactFields, parseFloat: string -> Option<real>, jsonParse: string -> Option<Json>): FactInput {
    var value := if Text.Trim(form.defaultText) == "" then None
                 else Some(Validators.ParseValueForType(form.defaultText, form.factType, parseFloat, jsonParse));
    FactInput(Text.Trim(form.name), form.factType, value, TrimmedOrAbsent(form.description))
  }

  /** `handleSubmit`: the first failing name check, or the built fact. */
  function HandleSubmit(form: FactFields, existingNames: seq<string>, initialData: Option<FactDefinition>,
                        parseFloat: string -> Option<real>, jsonParse: string -> Option<Json>): Result<FactInput, Validators.NameError>
  {
    var problem := NameCheck(form.name, existingNames, initialData);
    if problem.Some? then Failure(problem.value) else Success(BuildFact(form, parseFloat, jsonParse))
  }

  /** The form accepts a name exactly when the corrected name validation
      does. */
  lemma SubmitAcceptsIffValid(form: FactFields, existingNames: seq<string>, initialData: Option<FactDefinition>,
                              parseFloat: string -> Option<real>, jsonParse: string -> Option<Json>)
    ensures HandleSubmit(form, existingNames, initialData, parseFloat, jsonParse).Success? <==>
      Validators.ValidateFactName(form.name, existingNames, InitialName(initialData)).None?
  {
    Text.TrimEmptyIffBlank(form.name);
    if Text.IsFactNameFormat(form.name) {
      Text.FactNameFormatIsTrimmed(form.name);
    }
  }

  /** A name that passes is submitted exactly as typed: trimming a
      well-formed name changes nothing. */
  lemma SubmitKeepsTypedName(form: FactFields, existingNames: seq<string>, initialData: Option<FactDefinition>,
                             parseFloat: string -> Option<real>, jsonParse: string -> Option<Json>)
    ensures HandleSubmit(form, existingNames, initialData, parseFloat, jsonParse).Success? ==>
      HandleSubmit(form, existingNames, initialData, parseFloat, jsonParse).value.name == form.name
  {
    if NameCheck(form.name, existingNames, initialData).None? {
      Text.FactNameFormatIsTrimmed(form.name);
    }
  }

  /** A refusal carries the error the corrected validation gives, unless the
      name is white space only. */
  lemma SubmitErrorMatchesValidation(form: FactFields, existingNames: seq<string>, initialData: Option<FactDefinition>,
                                     parseFloat: string -> Option<real>, jsonParse: string -> Option<Json>)
    requires !(form.name != "" && Text.AllWhitespace(form.name))
    ensures HandleSubmit(form, existingNames, initialData, parseFloat, jsonParse).Failure? ==>
      Some(HandleSubmit(form, existingNames, initialData, parseFloat, jsonParse).error) ==
        Validators.ValidateFactName(form.name, existingNames, InitialName(initialData))
  {
    Text.TrimEmptyIffBlank(form.name);
  }

  /** A name of white space only is reported as missing by the form, where
      the validation reports it as malformed. */
  lemma BlankNameReportedMissing(form: FactFields, existingNames: seq<string>, initialData: Option<FactDefinition>,
                                 parseFloat: string -> Option<real>, jsonParse: string -> Option<Json>)
    requires form.name != "" && Text.AllWhitespace(form.name)
    ensures HandleSubmit(form, existingNames, initialData, parseFloat, jsonParse) == Failure(Validators.NameRequired)
    ensures Validators.ValidateFactName(form.name, existingNames, InitialName(initialData)) == Some(Validators.NameFormat)
  {
    Text.TrimEmptyIffBlank(form.name);
    assert !Text.IsAsciiLetter(form.name[0]) by {
      assert Text.IsWhitespace(form.name[0]);
    }
  }

  lemma ResubmitName(f: FactDefinition, existingNames: seq<string>)
    requires Text.IsFactNameFormat(f.name)
    requires forall k :: 0 <= k < |existingNames| && Text.EqualIgnoringCase(existingNames[k], f.name) ==> existingNames[k] == f.name
    ensures Text.Trim(f.name) == f.name != ""
    ensures !Validators.IsDuplicate(f.name, existingNames, Some(f.name))
  {
    Text.FactNameFormatIsTrimmed(f.name);
  }

  /** The fact's default value, if any, is of the fact's type, its display
      text is not blank, and that text parses back to it: for a number
      through `parseFloat`, for an array or object through `JSON.parse`. */
  predicate DefaultSurvivesDisplay(f: FactDefinition, parseFloat: string -> Option<real>, jsonParse: string -> Option<Json>,
                                   stringify: Json -> string, numberText: real -> string)
  {
    f.defaultValue.Some? ==>
      var v := f.defaultValue.value;
      HasType(v, f.factType) &&
      (f.factType == NumberFact ==> parseFloat(numberText(v.n)) == Some(v.n)) &&
      ((f.factType == ArrayFact || f.factType == ObjectFact) ==> jsonParse(stringify(v)) == Some(v)) &&
      Text.Trim(Validators.FormatValueForDisplay(f.defaultValue, f.factType, stringify, numberText)) != ""
  }

  lemma ResubmitDefault(f: FactDefinition, parseFloat: string -> Option<real>, jsonParse: string -> Option<Json>,
                        stringify: Json -> string, numberText: real -> string)
    requires DefaultSurvivesDisplay(f, parseFloat, jsonParse, stringify, numberText)
    ensures var text := Validators.FormatValueForDisplay(f.defaultValue, f.factType, stringify, numberText);
      (if Text.Trim(text) == "" then None
       else Some(Validators.ParseValueForType(text, f.factType, parseFloat, jsonParse))) == f.defaultValue
  {
    if f.defaultValue.Some? {
      Validators.DisplayParseRoundTrip(f.defaultValue.value, f.factType, parseFloat, jsonParse, stringify, numberText);
    } else {
      Text.TrimEmptyIffBlank("");
    }
  }

  /** The name of an opened fact passes every name check. */
  lemma ResubmitPassesChecks(f: FactDefinition, existingNames: seq<string>)
    requires Text.IsFactNameFormat(f.name)
    requires forall k :: 0 <= k < |existingNames| && Text.EqualIgnoringCase(existingNames[k], f.name) ==> existingNames[k] == f.name
    ensures NameCheck(f.name, existingNames, Some(f)) == None
  {
    ResubmitName(f, existingNames);
    assert Text.Trim(f.name) != "";
    assert InitialName(Some(f)) == Some(f.name);
    assert !Validators.IsDuplicate(f.name, existingNames, InitialName(Some(f)));
  }

  /** The fields of an opened fact build that fact again. */
  lemma ResubmitBuildsSame(f: FactDefinition, parseFloat: string -> Option<real>, jsonParse: string -> Option<Json>,
                           stringify: Json -> string, numberText: real -> string)
    requires Text.IsFactNameFormat(f.name)
    requires f.description.Some? ==> f.description.value != "" && Text.Trim(f.description.value) == f.description.value
    requires DefaultSurvivesDisplay(f, parseFloat, jsonParse, stringify, numberText)
    ensures BuildFact(OpenForm(Some(f), stringify, numberText), parseFloat, jsonParse) ==
      FactInput(f.name, f.factType, f.defaultValue, f.description)
  {
    var form := OpenForm(Some(f), stringify, numberText);
    assert form.name == f.name && form.factType == f.factType;
    assert form.defaultText == Validators.FormatValueForDisplay(f.defaultValue, f.factType, stringify, numberText);
    Text.FactNameFormatIsTrimmed(f.name);
    ResubmitDefault(f, parseFloat, jsonParse, stringify, numberText);
    ResubmitDescription(f.description);
  }

  /** A trimmed description, or none, survives the description field. */
  lemma ResubmitDescription(description: Option<string>)
    requires description.Some? ==> description.value != "" && Text.Trim(description.value) == description.value
    ensures TrimmedOrAbsent(if description.Some? then description.value else "") == description
  {
    if description.None? {
      Text.TrimEmptyIffBlank("");
    }
  }

  /** Opening an existing fact and submitting it unchanged gives the same
      fact back, provided its name is well formed and clashes with no other,
      its description is already trimmed, and its default value survives the
      display text. */
  lemma ResubmitUnchanged(f: FactDefinition, existingNames: seq<string>,
                          parseFloat: string -> Option<real>, jsonParse: string -> Option<Json>,
                          stringify: Json -> string, numberText: real -> string)
    requires Text.IsFactNameFormat(f.name)
    requires forall k :: 0 <= k < |existingNames| && Text.EqualIgnoringCase(existingNames[k], f.name) ==> existingNames[k] == f.name
    requires f.description.Some? ==> f.description.value != "" && Text.Trim(f.description.value) == f.description.value
    requires DefaultSurvivesDisplay(f, parseFloat, jsonParse, stringify, numberText)
    ensures HandleSubmit(OpenForm(Some(f), stringify, numberText), existingNames, Some(f), parseFloat, jsonParse) ==
      Success(FactInput(f.name, f.factType, f.defaultValue, f.description))
  {
    ResubmitPassesChecks(f, existingNames);
    ResubmitBuildsSame(f, parseFloat, jsonParse, stringify, numberText);
  }
}
