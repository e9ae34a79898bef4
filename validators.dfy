/** The form helpers in the validators library: the fact-name check, the
    conversion of a typed-in default value to a value of the fact's type,
    and its display text. `parseFloat`, `JSON.parse`, `JSON.stringify` and
    the number-to-text conversion are foreign and enter as parameters. */
module Validators {
  import opened Wrappers
  import opened Types
  import Text
  import Seqs
  import Engine

  /** The three ways a fact name is refused. */
  datatype NameError = NameRequired | NameFormat | NameTaken

  /** The message shown for each refusal. */
  function Message(e: NameError): string {
    match e
    case NameRequired => "Fact name is required"
    case NameFormat => "Fact name must start with a letter and contain only letters, numbers, and underscores"
    case NameTaken => "A fact with this name already exists"
  }

  /** An existing name that clashes with `name` up to case and is not the
      exempted string. */
  function ClashesWith(name: string, exempt: Option<string>): string -> bool {
    (n: string) => Text.EqualIgnoringCase(n, name) && (exempt.None? || n != exempt.value)
  }

  /** The `existingNames.some(...)` duplicate test. */
  function IsDuplicate(name: string, existingNames: seq<string>, exempt: Option<string>): (r: bool)
    ensures r <==> (exists k :: 0 <= k < |existingNames| &&
                     Text.EqualIgnoringCase(existingNames[k], name) && (exempt.None? || existingNames[k] != exempt.value))
  {
    var r := Seqs.Any(existingNames, ClashesWith(name, exempt));
    assert r <==> exists k :: 0 <= k < |existingNames| && ClashesWith(name, exempt)(existingNames[k]);
    r
  }

  /** `validateFactName` as written: the third argument is an identifier, yet
      it is compared with the existing names. */
  function ValidateFactNameAsWritten(name: string, existingNames: seq<string>, currentId: Option<Id>): (r: Option<NameError>)
    ensures name == "" <==> r == Some(NameRequired)
    ensures r == Some(NameFormat) <==> name != "" && !Text.IsFactNameFormat(name)
    ensures r == Some(NameTaken) <==>
      name != "" && Text.IsFactNameFormat(name) &&
      IsDuplicate(name, existingNames, if currentId.Some? then Some(IdText(currentId.value)) else None)
    ensures r == None <==>
      name != "" && Text.IsFactNameFormat(name) &&
      !IsDuplicate(name, existingNames, if currentId.Some? then Some(IdText(currentId.value)) else None)
  {
    if name == "" then Some(NameRequired)
    else if !Text.IsFactNameFormat(name) then Some(NameFormat)
    else if IsDuplicate(name, existingNames, if currentId.Some? then Some(IdText(currentId.value)) else None) then Some(NameTaken)
    else None
  }

  lemma {:induction false} IdTextStartsWithDigit(id: Id)
    ensures '0' <= IdText(id)[0] <= '9'
  {
    if id < 10 {
      var digits := "0123456789";
      assert forall k :: 0 <= k < 10 ==> '0' <= digits[k] <= '9';
    } else {
      IdTextStartsWithDigit(id / 10);
    }
  }

  /** The identifier never exempts anything: an existing name equal to a
      well-formed name up to case starts with a letter, an identifier's text
      with a digit. */
  lemma CurrentIdNeverExempts(name: string, existingNames: seq<string>, id: Id)
    ensures ValidateFactNameAsWritten(name, existingNames, Some(id)) == ValidateFactNameAsWritten(name, existingNames, None)
  {
    if name != "" && Text.IsFactNameFormat(name) {
      IdTextStartsWithDigit(id);
      forall k | 0 <= k < |existingNames| && Text.EqualIgnoringCase(existingNames[k], name)
        ensures existingNames[k] != IdText(id)
      {
        var n := existingNames[k];
        assert Text.ToLower(n)[0] == Text.ToLower(name)[0];
        assert Text.IsAsciiLetter(Text.LowerChar(n[0]));
      }
    }
  }

  /** As written, the check behaves exactly like the corrected one given no
      current name at all, whatever identifier is passed. */
  lemma AsWrittenIgnoresCurrent(name: string, existingNames: seq<string>, currentId: Option<Id>)
    ensures ValidateFactNameAsWritten(name, existingNames, currentId) == ValidateFactName(name, existingNames, None)
  {
    if currentId.Some? {
      CurrentIdNeverExempts(name, existingNames, currentId.value);
    }
  }

  /** Renaming fact `age` (identifier 1) to its own name is refused. */
  lemma AsWrittenRefusesOwnName()
    ensures ValidateFactNameAsWritten("age", ["age"], Some(1)) == Some(NameTaken)
  {
    assert Text.EqualIgnoringCase(["age"][0], "age");
    assert Text.IsFactNameFormat("age") by {
      assert Text.IsAsciiLetter("age"[0]);
    }
  }

  /** The check with the exemption the parameter is evidently meant for: the
      current name of the fact being edited, as the fact form passes it. */
  function ValidateFactName(name: string, existingNames: seq<string>, currentName: Option<string>): (r: Option<NameError>)
    ensures name == "" <==> r == Some(NameRequired)
    ensures r == Some(NameFormat) <==> name != "" && !Text.IsFactNameFormat(name)
    ensures r == Some(NameTaken) <==> Text.IsFactNameFormat(name) && IsDuplicate(name, existingNames, currentName)
    ensures r == None <==> (Text.IsFactNameFormat(name) &&
                            forall k :: 0 <= k < |existingNames| && Text.EqualIgnoringCase(existingNames[k], name) ==>
                              currentName == Some(existingNames[k]))
  {
    if name == "" then Some(NameRequired)
    else if !Text.IsFactNameFormat(name) then Some(NameFormat)
    else if IsDuplicate(name, existingNames, currentName) then Some(NameTaken)
    else None
  }

  /** With the correction, keeping one's own name passes whenever no other
      existing name clashes with it. */
  lemma CorrectedAcceptsOwnName(name: string, existingNames: seq<string>)
    requires Text.IsFactNameFormat(name)
    requires forall k :: 0 <= k < |existingNames| && Text.EqualIgnoringCase(existingNames[k], name) ==> existingNames[k] == name
    ensures ValidateFactName(name, existingNames, Some(name)) == None
    ensures ValidateFactName("age", ["age"], Some("age")) == None
  {
    assert Text.IsFactNameFormat("age") by {
      assert Text.IsAsciiLetter("age"[0]);
    }
  }

  // ----- typed values and their display text -----

  /** `parseValueForType`. `parseFloat` yields `None` for `NaN`; `jsonParse`
      yields `None` where `JSON.parse` throws. */
  function ParseValueForType(text: string, t: FactType,
                             parseFloat: string -> Option<real>, jsonParse: string -> Option<Json>): Json
  {
    match t
    case NumberFact => JNum(parseFloat(text).GetOr(0.0))
    case BooleanFact => JBool(Text.ToLower(text) == "true")
    case ArrayFact => jsonParse(text).GetOr(JArr([]))
    case ObjectFact => jsonParse(text).GetOr(JObj(map[]))
    case StringFact => JStr(text)
  }

  /** The value is of the fact's type, except that text which parses as
      JSON of another shape is kept as parsed for array and object facts. */
  lemma ParsedValueShape(text: string, t: FactType, parseFloat: string -> Option<real>, jsonParse: string -> Option<Json>)
    ensures t != ArrayFact && t != ObjectFact ==> HasType(ParseValueForType(text, t, parseFloat, jsonParse), t)
    ensures (t == ArrayFact || t == ObjectFact) && jsonParse(text).None? ==>
      ParseValueForType(text, t, parseFloat, jsonParse) == Engine.DefaultForType(t)
    ensures (t == ArrayFact || t == ObjectFact) && jsonParse(text).Some? ==>
      ParseValueForType(text, t, parseFloat, jsonParse) == jsonParse(text).value
    ensures t == BooleanFact ==>
      (ParseValueForType(text, t, parseFloat, jsonParse) == JBool(true) <==> Text.ToLower(text) == "true")
    ensures t == NumberFact && parseFloat(text).None? ==> ParseValueForType(text, t, parseFloat, jsonParse) == JNum(0.0)
  {
  }

  function Join(parts: seq<string>, sep: string): string
    decreases |parts|
  {
    if parts == [] then ""
    else if |parts| == 1 then parts[0]
    else parts[0] + sep + Join(parts[1..], sep)
  }

  /** `String(value)` for a non-null value; an array joins its items with
      commas, a `null` item giving the empty text. */
  function JsString(v: Json, numberText: real -> string): string
    decreases v
  {
    match v
    case JNull => "null"
    case JBool(b) => if b then "true" else "false"
    case JNum(n) => numberText(n)
    case JStr(s) => s
    case JArr(items) =>
      Join(seq(|items|, k requires 0 <= k < |items| =>
        if items[k] == JNull then "" else JsString(items[k], numberText)), ",")
    case JObj(_) => "[object Object]"
  }

  /** `formatValueForDisplay`; `stringify` is `JSON.stringify(v, null, 2)`. */
  function FormatValueForDisplay(value: Option<Json>, t: FactType,
                                 stringify: Json -> string, numberText: real -> string): string
  {
    if value.None? || value.value == JNull then ""
    else if t == ArrayFact || t == ObjectFact then stringify(value.value)
    else JsString(value.value, numberText)
  }

  /** Display then parse gives the value back: always for booleans and
      strings, for numbers when the number's text parses back to it, and for
      arrays and objects when the JSON text parses back to it. A missing or
      `null` value shows as empty text. */
  lemma DisplayParseRoundTrip(v: Json, t: FactType, parseFloat: string -> Option<real>, jsonParse: string -> Option<Json>,
                              stringify: Json -> string, numberText: real -> string)
    requires HasType(v, t)
    requires t == NumberFact ==> parseFloat(numberText(v.n)) == Some(v.n)
    requires t == ArrayFact || t == ObjectFact ==> jsonParse(stringify(v)) == Some(v)
    ensures ParseValueForType(FormatValueForDisplay(Some(v), t, stringify, numberText), t, parseFloat, jsonParse) == v
    ensures FormatValueForDisplay(None, t, stringify, numberText) == ""
    ensures FormatValueForDisplay(Some(JNull), t, stringify, numberText) == ""
  {
    if t == BooleanFact {
      assert Text.ToLower("true") == "true";
      assert |Text.ToLower("false")| == 5;
    }
  }
}
