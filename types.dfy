/** The rule data model: facts, condition trees, events, rules and run results. */
module Types {
  import opened Wrappers

  /** Identifiers are opaque strings (uuids) in the application; the model
      uses naturals so that a counter can stand for the uuid generator. */
  type Id = nat

  datatype FactType = StringFact | NumberFact | BooleanFact | ArrayFact | ObjectFact

  datatype OperatorType =
    | Equal | NotEqual
    | LessThan | LessThanInclusive | GreaterThan | GreaterThanInclusive
    | In | NotIn
    | Contains | DoesNotContain

  const AllFactTypes: seq<FactType> := [StringFact, NumberFact, BooleanFact, ArrayFact, ObjectFact]

  const AllOperatorTypes: seq<OperatorType> :=
    [Equal, NotEqual, LessThan, LessThanInclusive, GreaterThan, GreaterThanInclusive, In, NotIn, Contains, DoesNotContain]

  /** The fact-type union has exactly five members. */
  lemma FactTypeHasFiveMembers()
    ensures |AllFactTypes| == 5
    ensures forall t: FactType :: t in AllFactTypes
    ensures forall i, j :: 0 <= i < j < |AllFactTypes| ==> AllFactTypes[i] != AllFactTypes[j]
  {
    forall t: FactType ensures t in AllFactTypes {
      match t
      case StringFact => assert AllFactTypes[0] == t;
      case NumberFact => assert AllFactTypes[1] == t;
      case BooleanFact => assert AllFactTypes[2] == t;
      case ArrayFact => assert AllFactTypes[3] == t;
      case ObjectFact => assert AllFactTypes[4] == t;
    }
  }

  /** The operator union has exactly ten members. */
  lemma OperatorTypeHasTenMembers()
    ensures |AllOperatorTypes| == 10
    ensures forall op: OperatorType :: op in AllOperatorTypes
    ensures forall i, j :: 0 <= i < j < |AllOperatorTypes| ==> AllOperatorTypes[i] != AllOperatorTypes[j]
  {
    forall op: OperatorType ensures op in AllOperatorTypes {
      match op
      case Equal => assert AllOperatorTypes[0] == op;
      case NotEqual => assert AllOperatorTypes[1] == op;
      case LessThan => assert AllOperatorTypes[2] == op;
      case LessThanInclusive => assert AllOperatorTypes[3] == op;
      case GreaterThan => assert AllOperatorTypes[4] == op;
      case GreaterThanInclusive => assert AllOperatorTypes[5] == op;
      case In => assert AllOperatorTypes[6] == op;
      case NotIn => assert AllOperatorTypes[7] == op;
      case Contains => assert AllOperatorTypes[8] == op;
      case DoesNotContain => assert AllOperatorTypes[9] == op;
    }
  }

  /** The string literal each operator is written as. */
  function OperatorName(op: OperatorType): string {
    match op
    case Equal => "equal"
    case NotEqual => "notEqual"
    case LessThan => "lessThan"
    case LessThanInclusive => "lessThanInclusive"
    case GreaterThan => "greaterThan"
    case GreaterThanInclusive => "greaterThanInclusive"
    case In => "in"
    case NotIn => "notIn"
    case Contains => "contains"
    case DoesNotContain => "doesNotContain"
  }

  /** A JSON value, standing for the source's `unknown` values. Numbers are
      reals (no NaN, no infinities, no rounding). */
  datatype Json =
    | JNull
    | JBool(b: bool)
    | JNum(n: real)
    | JStr(s: string)
    | JArr(items: seq<Json>)
    | JObj(fields: map<string, Json>)

  /** The value shape a fact type stands for. */
  predicate HasType(v: Json, t: FactType) {
    match t
    case StringFact => v.JStr?
    case NumberFact => v.JNum?
    case BooleanFact => v.JBool?
    case ArrayFact => v.JArr?
    case ObjectFact => v.JObj?
  }

  /** A declared fact. An absent `defaultValue` is `None`. */
  datatype FactDefinition = FactDefinition(
    id: Id, name: string, factType: FactType, defaultValue: Option<Json>, description: Option<string>)

  /** `Omit<FactDefinition, 'id'>`, the argument of `addFact`. */
  datatype FactInput = FactInput(
    name: string, factType: FactType, defaultValue: Option<Json>, description: Option<string>)

  /** A leaf of a condition tree. */
  datatype Condition = Condition(
    id: Id, fact: string, operator: OperatorType, value: Json,
    path: Option<string>, params: Option<map<string, Json>>)

  datatype GroupType = All | Any | Not

  /** An inner node: a combinator over an ordered list of children. */
  datatype ConditionGroup = ConditionGroup(id: Id, groupType: GroupType, conditions: seq<Node>)

  /** `Condition | ConditionGroup`, tagged. */
  datatype Node = Leaf(condition: Condition) | Nested(group: ConditionGroup)

  datatype RuleEvent = RuleEvent(eventType: string, params: Option<map<string, Json>>)

  /** A rule: exactly one root group and one event. */
  datatype Rule = Rule(
    id: Id, name: string, description: Option<string>, priority: int,
    conditions: ConditionGroup, event: RuleEvent, enabled: bool)

  /** `Omit<Rule, 'id'>`, the argument of `addRule`. */
  datatype RuleInput = RuleInput(
    name: string, description: Option<string>, priority: int,
    conditions: ConditionGroup, event: RuleEvent, enabled: bool)

  datatype ConditionEvaluation = ConditionEvaluation(
    fact: string, operator: string, value: Json, factValue: Json, result: bool)

  datatype RuleResult = RuleResult(
    ruleId: Id, ruleName: string, success: bool, conditions: seq<ConditionEvaluation>)

  /** A run report; the wall-clock `timestamp` and `executionTime` are not modelled. */
  datatype EngineRunResult = EngineRunResult(events: seq<RuleEvent>, results: seq<RuleResult>)

  /** The property keys a node carries as a JavaScript object: a leaf has
      `path`/`params` only when set, a group always has `type` and `conditions`. */
  function NodeKeys(n: Node): set<string> {
    match n
    case Leaf(c) =>
      {"id", "fact", "operator", "value"}
      + (if c.path.Some? then {"path"} else {})
      + (if c.params.Some? then {"params"} else {})
    case Nested(_) => {"id", "type", "conditions"}
  }

  /** `isConditionGroup`: both `type` and `conditions` are keys of the node,
      which is the case exactly for groups. */
  function IsConditionGroup(n: Node): (r: bool)
    ensures r <==> n.Nested?
  {
    "type" in NodeKeys(n) && "conditions" in NodeKeys(n)
  }

  /** The `'conditions' in c` test used by the tree walks selects exactly the
      groups, and `'fact' in c` exactly the leaves. */
  lemma KeyTestsDiscriminate(n: Node)
    ensures "conditions" in NodeKeys(n) <==> n.Nested?
    ensures "fact" in NodeKeys(n) <==> n.Leaf?
    ensures "type" in NodeKeys(n) <==> n.Nested?
  {
  }

  // ----- leaves, in depth-first left-to-right order -----

  function NodeLeaves(n: Node): seq<Condition>
    decreases n
  {
    match n
    case Leaf(c) => [c]
    case Nested(g) => ChildLeaves(g.conditions)
  }

  function ChildLeaves(cs: seq<Node>): seq<Condition>
    decreases cs
  {
    if cs == [] then [] else NodeLeaves(cs[0]) + ChildLeaves(cs[1..])
  }

  function GroupLeaves(g: ConditionGroup): seq<Condition> {
    ChildLeaves(g.conditions)
  }

  /** The fact names of a list of leaves, in order. */
  function FactNames(cs: seq<Condition>): seq<string> {
    seq(|cs|, k requires 0 <= k < |cs| => cs[k].fact)
  }

  lemma {:induction false} ChildLeavesAppend(a: seq<Node>, b: seq<Node>)
    ensures ChildLeaves(a + b) == ChildLeaves(a) + ChildLeaves(b)
  {
    if a == [] {
      assert a + b == b;
    } else {
      assert (a + b)[1..] == a[1..] + b;
      ChildLeavesAppend(a[1..], b);
    }
  }

  // ----- identifiers, in pre-order -----

  function NodeIds(n: Node): seq<Id>
    decreases n
  {
    match n
    case Leaf(c) => [c.id]
    case Nested(g) => [g.id] + ChildIds(g.conditions)
  }

  function ChildIds(cs: seq<Node>): seq<Id>
    decreases cs
  {
    if cs == [] then [] else NodeIds(cs[0]) + ChildIds(cs[1..])
  }

  function GroupIds(g: ConditionGroup): seq<Id> {
    [g.id] + ChildIds(g.conditions)
  }

  /** Every identifier a rule owns: its own and those of all its tree nodes. */
  function RuleIds(r: Rule): seq<Id> {
    [r.id] + GroupIds(r.conditions)
  }

  // ----- shape: a tree with its identifiers blanked out -----

  function NodeShape(n: Node): Node
    decreases n
  {
    match n
    case Leaf(c) => Leaf(c.(id := 0))
    case Nested(g) => Nested(ConditionGroup(0, g.groupType, ChildShapes(g.conditions)))
  }

  function ChildShapes(cs: seq<Node>): (r: seq<Node>)
    decreases cs
    ensures |r| == |cs|
  {
    if cs == [] then [] else [NodeShape(cs[0])] + ChildShapes(cs[1..])
  }

  function GroupShape(g: ConditionGroup): ConditionGroup {
    ConditionGroup(0, g.groupType, ChildShapes(g.conditions))
  }

  /** The text of an identifier where the source puts an id into a string-valued place. */
  function IdText(id: Id): (r: string)
    ensures |r| >= 1
  {
    var d := "0123456789"[id % 10];
    if id < 10 then [d] else IdText(id / 10) + [d]
  }
}
