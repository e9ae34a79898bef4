/** The event-parameter editor: add, remove and edit entries of the event's
    parameter object. Entered text is read as JSON where `JSON.parse`
    accepts it and kept as a string otherwise; `jsonParse` (`None` where
    `JSON.parse` throws) and `stringify` (`JSON.stringify`) are parameters. */
module EventParams {
  import opened Wrappers
  import opened Types
  import Text

  /** The value entered text stands for. */
  function ParseOrRaw(text: string, jsonParse: string -> Option<Json>): Json {
    jsonParse(text).GetOr(JStr(text))
  }

  /** `addParam`: `None` when the key is blank (no change is reported),
      otherwise the object with the trimmed key set to the entered value. */
  function AddParam(params: map<string, Json>, newKey: string, newValue: string,
                    jsonParse: string -> Option<Json>): Option<map<string, Json>>
  {
    if Text.Trim(newKey) == "" then None
    else Some(params[Text.Trim(newKey) := ParseOrRaw(newValue, jsonParse)])
  }

  /** `removeParam`. */
  function RemoveParam(params: map<string, Json>, key: string): map<string, Json> {
    params - {key}
  }

  /** `updateParam`: the key as given, untrimmed. */
  function UpdateParam(params: map<string, Json>, key: string, value: string,
                       jsonParse: string -> Option<Json>): map<string, Json>
  {
    params[key := ParseOrRaw(value, jsonParse)]
  }

  /** `formatValue`: a string as it is, anything else as JSON text. */
  function FormatValue(v: Json, stringify: Json -> string): string {
    if v.JStr? then v.s else stringify(v)
  }

  /** Adding reports nothing for a blank key; otherwise it sets exactly the
      trimmed, non-empty key and leaves every other entry alone. */
  lemma AddParamEffect(params: map<string, Json>, newKey: string, newValue: string, jsonParse: string -> Option<Json>)
    ensures AddParam(params, newKey, newValue, jsonParse).None? <==> Text.AllWhitespace(newKey)
    ensures AddParam(params, newKey, newValue, jsonParse).Some? ==>
      var k := Text.Trim(newKey);
      var after := AddParam(params, newKey, newValue, jsonParse).value;
      k != "" && after.Keys == params.Keys + {k} && after[k] == ParseOrRaw(newValue, jsonParse) &&
      forall j :: j in params && j != k ==> after[j] == params[j]
  {
    Text.TrimEmptyIffBlank(newKey);
  }

  /** Removing drops exactly the one key, and undoes adding a key that was
      not there. */
  lemma RemoveUndoesAdd(params: map<string, Json>, newKey: string, newValue: string, jsonParse: string -> Option<Json>)
    ensures forall j :: j in RemoveParam(params, newKey) <==> j in params && j != newKey
    ensures forall j :: j in RemoveParam(params, newKey) ==> RemoveParam(params, newKey)[j] == params[j]
    ensures AddParam(params, newKey, newValue, jsonParse).Some? && Text.Trim(newKey) !in params ==>
      RemoveParam(AddParam(params, newKey, newValue, jsonParse).value, Text.Trim(newKey)) == params
  {
  }

  /** Editing an entry to its own shown text leaves the object as it was
      when that text reads back as the same value: a string that is not
      JSON, or a non-string whose JSON text parses back to it. A string that
      is itself JSON text, such as "42", is replaced by the parsed value. */
  lemma EditShownText(params: map<string, Json>, key: string, jsonParse: string -> Option<Json>, stringify: Json -> string)
    requires key in params
    ensures params[key].JStr? && jsonParse(params[key].s).None? ==>
      UpdateParam(params, key, FormatValue(params[key], stringify), jsonParse) == params
    ensures !params[key].JStr? && jsonParse(stringify(params[key])) == Some(params[key]) ==>
      UpdateParam(params, key, FormatValue(params[key], stringify), jsonParse) == params
    ensures params[key].JStr? && jsonParse(params[key].s).Some? ==>
      UpdateParam(params, key, FormatValue(params[key], stringify), jsonParse)[key] == jsonParse(params[key].s).value
  {
  }
}
