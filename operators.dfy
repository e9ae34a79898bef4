/** The operator catalogue: which operators are offered for which fact type. */
module Operators {
  import opened Wrappers
  import opened Types
  import Seqs

  datatype OperatorDefinition = OperatorDefinition(
    value: OperatorType, labelText: string, description: string, supportedTypes: seq<FactType>)

  /** The label the table shows for each operator. */
  function LabelOf(op: OperatorType): string {
    match op
    case Equal => "Equal"
    case NotEqual => "Not Equal"
    case LessThan => "Less Than"
    case LessThanInclusive => "Less Than or Equal"
    case GreaterThan => "Greater Than"
    case GreaterThanInclusive => "Greater Than or Equal"
    case In => "In"
    case NotIn => "Not In"
    case Contains => "Contains"
    case DoesNotContain => "Does Not Contain"
  }

  /** The description the table gives for each operator. */
  function DescriptionOf(op: OperatorType): string {
    match op
    case Equal => "Checks if values are equal"
    case NotEqual => "Checks if values are not equal"
    case LessThan => "Checks if value is less than"
    case LessThanInclusive => "Checks if value is less than or equal"
    case GreaterThan => "Checks if value is greater than"
    case GreaterThanInclusive => "Checks if value is greater than or equal"
    case In => "Checks if value is in array"
    case NotIn => "Checks if value is not in array"
    case Contains => "Checks if array contains value"
    case DoesNotContain => "Checks if array does not contain value"
  }

  /** A table row: the operator, its label and description, and its fact types. */
  function Row(op: OperatorType, types: seq<FactType>): OperatorDefinition {
    OperatorDefinition(op, LabelOf(op), DescriptionOf(op), types)
  }

  /** The fixed table, in the order the application lists it. */
  const OPERATORS: seq<OperatorDefinition> := [
    Row(Equal, [StringFact, NumberFact, BooleanFact, ObjectFact]),
    Row(NotEqual, [StringFact, NumberFact, BooleanFact, ObjectFact]),
    Row(LessThan, [NumberFact]),
    Row(LessThanInclusive, [NumberFact]),
    Row(GreaterThan, [NumberFact]),
    Row(GreaterThanInclusive, [NumberFact]),
    Row(In, [StringFact, NumberFact]),
    Row(NotIn, [StringFact, NumberFact]),
    Row(Contains, [ArrayFact]),
    Row(DoesNotContain, [ArrayFact])
  ]

  function Supports(t: FactType): OperatorDefinition -> bool {
    (op: OperatorDefinition) => t in op.supportedTypes
  }

  function HasValue(op: OperatorType): OperatorDefinition -> bool {
    (d: OperatorDefinition) => d.value == op
  }

  /** The operator names of a list of definitions. */
  function Values(defs: seq<OperatorDefinition>): seq<OperatorType> {
    seq(|defs|, k requires 0 <= k < |defs| => defs[k].value)
  }

  /** `getOperatorsForType`: the table entries that support `t`. */
  function OperatorsForType(t: FactType): seq<OperatorDefinition> {
    Seqs.Filter(OPERATORS, Supports(t))
  }

  /** The row of each operator in the table. */
  function RowIndex(op: OperatorType): (i: nat)
    ensures i < |OPERATORS| && OPERATORS[i].value == op
  {
    match op
    case Equal => 0
    case NotEqual => 1
    case LessThan => 2
    case LessThanInclusive => 3
    case GreaterThan => 4
    case GreaterThanInclusive => 5
    case In => 6
    case NotIn => 7
    case Contains => 8
    case DoesNotContain => 9
  }

  /** No two rows of `defs` describe the same operator. */
  predicate DistinctValues(defs: seq<OperatorDefinition>) {
    forall i, j :: 0 <= i < j < |defs| ==> defs[i].value != defs[j].value
  }

  /** Each operator has exactly one row in the table. */
  lemma EachOperatorListedOnce()
    ensures DistinctValues(OPERATORS)
  {
    forall i | 0 <= i < |OPERATORS|
      ensures RowIndex(OPERATORS[i].value) == i
    {
    }
  }

  /** The fact types the table lists for `op`. */
  function SupportedTypes(op: OperatorType): seq<FactType> {
    OPERATORS[RowIndex(op)].supportedTypes
  }

  /** The fact types of each row, read off the table. */
  lemma SupportedTypesByRow(op: OperatorType)
    ensures op == Equal || op == NotEqual ==> SupportedTypes(op) == [StringFact, NumberFact, BooleanFact, ObjectFact]
    ensures op == LessThan || op == LessThanInclusive || op == GreaterThan || op == GreaterThanInclusive ==>
      SupportedTypes(op) == [NumberFact]
    ensures op == In || op == NotIn ==> SupportedTypes(op) == [StringFact, NumberFact]
    ensures op == Contains || op == DoesNotContain ==> SupportedTypes(op) == [ArrayFact]
  {
  }

  /** In a table with one row per operator, filtering by fact type offers an
      operator exactly when its row lists that type. */
  lemma {:induction false} FilterOffersListed(defs: seq<OperatorDefinition>, t: FactType, i: nat)
    requires i < |defs| && DistinctValues(defs)
    ensures defs[i].value in Values(Seqs.Filter(defs, Supports(t))) <==> t in defs[i].supportedTypes
  {
    var r := Seqs.Filter(defs, Supports(t));
    var op := defs[i].value;
    Seqs.FilterMembers(defs, Supports(t));
    if op in Values(r) {
      var k :| 0 <= k < |r| && r[k].value == op;
      var j :| 0 <= j < |defs| && defs[j] == r[k];
      assert t in defs[j].supportedTypes;
      assert j == i;
    }
    if t in defs[i].supportedTypes {
      assert Supports(t)(defs[i]);
      var k :| 0 <= k < |r| && r[k] == defs[i];
      assert Values(r)[k] == op;
    }
  }

  /** An operator is offered for `t` exactly when its row lists `t`. */
  lemma OfferedIffSupported(t: FactType, op: OperatorType)
    ensures op in Values(OperatorsForType(t)) <==> t in SupportedTypes(op)
  {
    EachOperatorListedOnce();
    FilterOffersListed(OPERATORS, t, RowIndex(op));
  }

  /** The offered operators keep the table's order. */
  lemma OperatorsInTableOrder(t: FactType)
    ensures forall k, m :: 0 <= k < m < |OperatorsForType(t)| ==>
      RowIndex(OperatorsForType(t)[k].value) < RowIndex(OperatorsForType(t)[m].value)
  {
    var r := OperatorsForType(t);
    var pos := Seqs.FilterPositions(OPERATORS, Supports(t));
    Seqs.FilterKeepsOrder(OPERATORS, Supports(t));
    Seqs.FilterPositionsIncrease(OPERATORS, Supports(t));
    EachOperatorListedOnce();
    forall k | 0 <= k < |r|
      ensures RowIndex(r[k].value) == pos[k]
    {
      assert r[k] == OPERATORS[pos[k]];
      RowIndexUnique(r[k].value, pos[k]);
    }
  }

  /** The row holding an operator is the one `RowIndex` names. */
  lemma RowIndexUnique(op: OperatorType, i: nat)
    requires i < |OPERATORS| && OPERATORS[i].value == op
    ensures i == RowIndex(op)
  {
    EachOperatorListedOnce();
  }

  /** The four relational operators are offered for numbers only. */
  lemma RelationalOnlyForNumbers(t: FactType, op: OperatorType)
    requires op == LessThan || op == LessThanInclusive || op == GreaterThan || op == GreaterThanInclusive
    ensures op in Values(OperatorsForType(t)) <==> t == NumberFact
  {
    OfferedIffSupported(t, op);
    SupportedTypesByRow(op);
  }

  /** Arrays get exactly `contains`/`doesNotContain`, which no other type gets. */
  lemma ArrayOnlyOperators(t: FactType, op: OperatorType)
    requires op == Contains || op == DoesNotContain
    ensures op in Values(OperatorsForType(t)) <==> t == ArrayFact
  {
    OfferedIffSupported(t, op);
    SupportedTypesByRow(op);
  }

  /** `equal` and `notEqual` are offered for every type except arrays. */
  lemma EqualityExceptArrays(t: FactType, op: OperatorType)
    requires op == Equal || op == NotEqual
    ensures op in Values(OperatorsForType(t)) <==> t != ArrayFact
  {
    OfferedIffSupported(t, op);
    SupportedTypesByRow(op);
  }

  /** `in` and `notIn` are offered for strings and numbers. */
  lemma MembershipForStringsAndNumbers(t: FactType, op: OperatorType)
    requires op == In || op == NotIn
    ensures op in Values(OperatorsForType(t)) <==> t == StringFact || t == NumberFact
  {
    OfferedIffSupported(t, op);
    SupportedTypesByRow(op);
  }

  /** Every fact type is offered at least two operators. */
  lemma NoFactTypeWithoutOperators(t: FactType)
    ensures |OperatorsForType(t)| >= 2
  {
    var vs := Values(OperatorsForType(t));
    ArrayOnlyOperators(t, Contains);
    ArrayOnlyOperators(t, DoesNotContain);
    EqualityExceptArrays(t, Equal);
    EqualityExceptArrays(t, NotEqual);
    if t == ArrayFact {
      TwoDistinctMembers(vs, Contains, DoesNotContain);
    } else {
      TwoDistinctMembers(vs, Equal, NotEqual);
    }
  }

  lemma TwoDistinctMembers(vs: seq<OperatorType>, a: OperatorType, b: OperatorType)
    requires a in vs && b in vs && a != b
    ensures |vs| >= 2
  {
    var i :| 0 <= i < |vs| && vs[i] == a;
    var j :| 0 <= j < |vs| && vs[j] == b;
    assert i != j;
  }

  /** `find` by operator value in a table with one row per operator returns
      that operator's row. */
  lemma {:induction false} FindRowByValue(defs: seq<OperatorDefinition>, i: nat)
    requires i < |defs| && DistinctValues(defs)
    ensures Seqs.Find(defs, HasValue(defs[i].value)) == Some(defs[i])
  {
    var found := Seqs.Find(defs, HasValue(defs[i].value));
    assert HasValue(defs[i].value)(defs[i]);
    var j :| 0 <= j < |defs| && defs[j] == found.value && HasValue(defs[i].value)(defs[j]);
    assert j == i;
  }

  /** Every row carries its operator's label, and no label is empty. */
  lemma RowLabel(op: OperatorType)
    ensures OPERATORS[RowIndex(op)].labelText == LabelOf(op) != ""
  {
  }

  /** `getOperatorLabel`: the label of the operator's row; the fallback to the
      operator's own name never applies since every row has a non-empty label. */
  function OperatorLabel(op: OperatorType): (r: string)
    ensures r == LabelOf(op)
  {
    EachOperatorListedOnce();
    FindRowByValue(OPERATORS, RowIndex(op));
    RowLabel(op);
    var found := Seqs.Find(OPERATORS, HasValue(op));
    if found.Some? && found.value.labelText != "" then found.value.labelText else OperatorName(op)
  }
}
