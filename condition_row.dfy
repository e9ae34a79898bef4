/** One condition row: the operators it offers for the selected fact, the
    reset when another fact is chosen, and the JSON-path input shown for
    object and array facts. */
module ConditionRow {
  import opened Wrappers
  import opened Types
  import Operators
  import UseFacts
  import Engine

  /** The type the operator selector works with: the named fact's, or
      `string` when no fact has that name. */
  function SelectedType(facts: seq<FactDefinition>, factName: string): FactType {
    var fact := UseFacts.GetFactByName(facts, factName);
    if fact.Some? then fact.value.factType else StringFact
  }

  /** The operators the selector lists for the condition's fact. */
  function OfferedOperators(facts: seq<FactDefinition>, factName: string): seq<OperatorType> {
    Operators.Values(Operators.OperatorsForType(SelectedType(facts, factName)))
  }

  /** The selected type is that of the first fact with the name, or
      `string` when there is none. */
  lemma SelectedTypeOfFirstNamed(facts: seq<FactDefinition>, factName: string)
    ensures (forall k :: 0 <= k < |facts| ==> facts[k].name != factName) ==> SelectedType(facts, factName) == StringFact
    ensures forall i :: 0 <= i < |facts| && facts[i].name == factName &&
                        (forall k :: 0 <= k < i ==> facts[k].name != factName) ==>
      SelectedType(facts, factName) == facts[i].factType
  {
    FirstNamedIsFound(facts, factName);
  }

  /** The selector offers an operator exactly when the table supports it for
      the selected type. */
  lemma OfferedForSelectedFact(facts: seq<FactDefinition>, factName: string, op: OperatorType)
    ensures op in OfferedOperators(facts, factName) <==> SelectedType(facts, factName) in Operators.SupportedTypes(op)
  {
    Operators.OfferedIffSupported(SelectedType(facts, factName), op);
  }

  /** The fact the lookup finds is the one at the first position holding
      that name. */
  lemma FirstNamedIsFound(facts: seq<FactDefinition>, factName: string)
    ensures forall i :: 0 <= i < |facts| && facts[i].name == factName &&
                        (forall k :: 0 <= k < i ==> facts[k].name != factName) ==>
      UseFacts.GetFactByName(facts, factName) == Some(facts[i])
  {
    var fact := UseFacts.GetFactByName(facts, factName);
    if fact.Some? {
      forall i | 0 <= i < |facts| && facts[i].name == factName && (forall k :: 0 <= k < i ==> facts[k].name != factName)
        ensures facts[i] == fact.value
      {
        var j :| 0 <= j < |facts| && facts[j] == fact.value && (forall k :: 0 <= k < j ==> facts[k].name != factName);
        assert j == i;
      }
    }
  }

  /** The value a condition is reset to: `0` for a number fact, `''`
      otherwise (also when no fact has the name). */
  function ResetValue(facts: seq<FactDefinition>, factName: string): Json {
    var fact := UseFacts.GetFactByName(facts, factName);
    if fact.Some? && fact.value.factType == NumberFact then JNum(0.0) else JStr("")
  }

  /** `handleFactChange` as written: both arms of the type test pick
      `equal`. */
  function HandleFactChangeAsWritten(c: Condition, factName: string, facts: seq<FactDefinition>): (r: Condition)
    ensures r.fact == factName && r.operator == Equal
    ensures r.id == c.id && r.path == c.path && r.params == c.params
    ensures r.value == (if SelectedType(facts, factName) == NumberFact then JNum(0.0) else JStr(""))
  {
    c.(fact := factName, operator := Equal, value := ResetValue(facts, factName))
  }

  /** Choosing an array fact leaves the row on `equal`, which its selector
      does not offer. */
  lemma AsWrittenSelectsUnofferedOperator(c: Condition)
    ensures var facts := [FactDefinition(0, "tags", ArrayFact, None, None)];
      HandleFactChangeAsWritten(c, "tags", facts).operator !in OfferedOperators(facts, "tags")
  {
    var facts := [FactDefinition(0, "tags", ArrayFact, None, None)];
    assert SelectedType(facts, "tags") == ArrayFact;
    Operators.EqualityExceptArrays(ArrayFact, Equal);
  }

  /** The first operator the table offers for a type: `equal` for all but
      arrays, `contains` for arrays. */
  lemma FirstOffered(t: FactType)
    ensures |Operators.OperatorsForType(t)| > 0
    ensures Operators.OperatorsForType(t)[0].value == (if t == ArrayFact then Contains else Equal)
  {
    var r := Operators.OperatorsForType(t);
    var want := if t == ArrayFact then Contains else Equal;
    Operators.ArrayOnlyOperators(t, Contains);
    Operators.EqualityExceptArrays(t, Equal);
    var m := PositionOf(r, want);
    FirstHasLowestRow(t, m);
    assert Operators.Values(r)[0] == r[0].value;
    Operators.OfferedIffSupported(t, r[0].value);
  }

  /** No operator offered for a type sits in an earlier table row than the
      first one offered. */
  lemma FirstHasLowestRow(t: FactType, m: nat)
    requires m < |Operators.OperatorsForType(t)|
    ensures Operators.RowIndex(Operators.OperatorsForType(t)[0].value) <=
            Operators.RowIndex(Operators.OperatorsForType(t)[m].value)
  {
    if m > 0 {
      Operators.OperatorsInTableOrder(t);
    }
  }

  /** A position of an operator in a list of definitions that offers it. */
  lemma PositionOf(defs: seq<Operators.OperatorDefinition>, op: OperatorType) returns (m: nat)
    requires op in Operators.Values(defs)
    ensures m < |defs| && defs[m].value == op
  {
    m :| 0 <= m < |defs| && Operators.Values(defs)[m] == op;
  }

  /** The operator a row switches to: the first one its selector offers for
      the newly chosen fact. */
  function FirstOfferedOperator(facts: seq<FactDefinition>, factName: string): (op: OperatorType)
    ensures op in OfferedOperators(facts, factName)
    ensures op == (if SelectedType(facts, factName) == ArrayFact then Contains else Equal)
  {
    var ops := Operators.OperatorsForType(SelectedType(facts, factName));
    FirstOffered(SelectedType(facts, factName));
    assert Operators.Values(ops)[0] == ops[0].value;
    ops[0].value
  }

  /** `handleFactChange` with the operator the row evidently meant to pick:
      one the selector offers for the chosen fact. */
  function HandleFactChange(c: Condition, factName: string, facts: seq<FactDefinition>): (r: Condition)
    ensures r.fact == factName && r.operator in OfferedOperators(facts, factName)
    ensures r.id == c.id && r.path == c.path && r.params == c.params
    ensures r.value == (if SelectedType(facts, factName) == NumberFact then JNum(0.0) else JStr(""))
  {
    c.(fact := factName, operator := FirstOfferedOperator(facts, factName), value := ResetValue(facts, factName))
  }

  /** The correction changes nothing except for array facts. */
  lemma CorrectionOnlyForArrays(c: Condition, factName: string, facts: seq<FactDefinition>)
    ensures SelectedType(facts, factName) != ArrayFact ==>
      HandleFactChange(c, factName, facts) == HandleFactChangeAsWritten(c, factName, facts)
    ensures SelectedType(facts, factName) == ArrayFact ==>
      HandleFactChange(c, factName, facts) == HandleFactChangeAsWritten(c, factName, facts).(operator := Contains)
  {
  }

  /** `showPathInput`: the first fact with the condition's name is an object
      or an array fact. */
  function ShowPathInput(facts: seq<FactDefinition>, factName: string): (r: bool)
    ensures r <==> exists i :: 0 <= i < |facts| && facts[i].name == factName &&
                               (facts[i].factType == ObjectFact || facts[i].factType == ArrayFact) &&
                               (forall k :: 0 <= k < i ==> facts[k].name != factName)
  {
    FirstNamedIsFound(facts, factName);
    var fact := UseFacts.GetFactByName(facts, factName);
    fact.Some? && (fact.value.factType == ObjectFact || fact.value.factType == ArrayFact)
  }

  /** The text the path input shows, `condition.path || ''`. */
  function ShownPath(c: Condition): string {
    if c.path.Some? then c.path.value else ""
  }

  /** The path input's change handler, `e.target.value || undefined`. */
  function EditPath(c: Condition, text: string): Condition {
    c.(path := if text == "" then None else Some(text))
  }

  /** The input shows what was typed, never stores an empty path, and the
      engine receives exactly the typed path (none once the input is
      cleared); showing and re-entering a path changes nothing. */
  lemma PathEditRoundTrip(c: Condition, text: string)
    ensures ShownPath(EditPath(c, text)) == text
    ensures EditPath(c, text).path != Some("")
    ensures EditPath(c, text) == c.(path := EditPath(c, text).path)
    ensures Engine.ConvertCondition(EditPath(c, text)).path == (if text == "" then None else Some(text))
    ensures c.path != Some("") ==> EditPath(c, ShownPath(c)) == c
  {
  }
}
