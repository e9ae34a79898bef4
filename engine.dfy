/** The front end of the rules engine: translating condition trees and rules
    into the engine's input shape, building the fact environment, assembling
    one result per enabled rule, and checking rules for dangling fact names.
    The evaluator itself is a foreign library and enters as a parameter. */
module Engine {
  import opened Wrappers
  import opened Types
  import Seqs

  /** The engine's condition shape: a leaf, or an `all`/`any` list, or a
      `not` over at most one condition (`not: undefined` is `None`). */
  datatype EngineCondition =
    | EngineLeaf(fact: string, operator: OperatorType, value: Json,
                 path: Option<string>, params: Option<map<string, Json>>)
    | EngineAll(all: seq<EngineCondition>)
    | EngineAny(any: seq<EngineCondition>)
    | EngineNot(not: Option<EngineCondition>)

  datatype EngineEvent = EngineEvent(eventType: string, params: map<string, Json>)

  /** The engine's rule: its name is the application rule's id. */
  datatype EngineRule = EngineRule(name: Id, priority: int, conditions: EngineCondition, event: EngineEvent)

  /** One entry of the engine's own result list. */
  datatype EngineRuleResult = EngineRuleResult(name: Id, result: bool)

  /** What a `throw` carries: an `Error` with a message, or any other value. */
  datatype Thrown = ErrorObject(message: string) | NonError

  datatype EngineOutcome =
    | Completed(events: seq<EngineEvent>, results: seq<EngineRuleResult>)
    | Threw(error: Thrown)

  /** The foreign engine: which rules `addRule` accepts without throwing, and
      what `run` yields for the accepted rules and a fact environment. */
  datatype ForeignEngine = ForeignEngine(
    accepts: EngineRule -> bool,
    run: (seq<EngineRule>, map<string, Json>) -> EngineOutcome)

  // ----- condition conversion -----

  /** `convertConditionToEngine`: fact, operator and value are copied; `path`
      is kept only when it is a non-empty string and `params` when present. */
  function ConvertCondition(c: Condition): EngineCondition {
    EngineLeaf(c.fact, c.operator, c.value,
               if c.path.Some? && c.path.value != "" then c.path else None,
               c.params)
  }

  /** The leaf a converted condition describes, given back its identifier. */
  function RestoreCondition(e: EngineCondition, id: Id): Condition
    requires e.EngineLeaf?
  {
    Condition(id, e.fact, e.operator, e.value, e.path, e.params)
  }

  /** Conversion loses only the identifier and an empty path. */
  lemma ConvertConditionRoundTrip(c: Condition)
    ensures ConvertCondition(c).EngineLeaf?
    ensures c.path != Some("") ==> RestoreCondition(ConvertCondition(c), c.id) == c
    ensures c.path == Some("") ==> RestoreCondition(ConvertCondition(c), c.id) == c.(path := None)
  {
  }

  /** The group shape for a combinator over already converted children:
      `not` keeps the first child only. */
  function Combine(t: GroupType, converted: seq<EngineCondition>): EngineCondition {
    match t
    case All => EngineAll(converted)
    case Any => EngineAny(converted)
    case Not => EngineNot(if |converted| > 0 then Some(converted[0]) else None)
  }

  function ConvertNode(n: Node): EngineCondition
    decreases n
  {
    match n
    case Leaf(c) => ConvertCondition(c)
    case Nested(g) => Combine(g.groupType, ConvertChildren(g.conditions))
  }

  /** `group.conditions.map(...)`. */
  function ConvertChildren(cs: seq<Node>): (r: seq<EngineCondition>)
    decreases cs
    ensures |r| == |cs|
  {
    if cs == [] then [] else [ConvertNode(cs[0])] + ConvertChildren(cs[1..])
  }

  /** `convertConditionGroupToEngine`. */
  function ConvertGroup(g: ConditionGroup): EngineCondition {
    Combine(g.groupType, ConvertChildren(g.conditions))
  }

  /** Each child is converted in place: same count, same order. */
  lemma {:induction false} ConvertChildrenPointwise(cs: seq<Node>)
    ensures |ConvertChildren(cs)| == |cs|
    ensures forall k :: 0 <= k < |cs| ==> ConvertChildren(cs)[k] == ConvertNode(cs[k])
  {
    if cs != [] {
      ConvertChildrenPointwise(cs[1..]);
      forall k | 1 <= k < |cs| ensures ConvertChildren(cs)[k] == ConvertNode(cs[k]) {
        assert cs[1..][k - 1] == cs[k];
      }
    }
  }

  /** `all` and `any` groups convert every child, in order; a `not` group
      keeps only its first converted child, or nothing when it has none. */
  lemma ConvertGroupShape(g: ConditionGroup)
    ensures g.groupType == All ==> ConvertGroup(g).EngineAll? && |ConvertGroup(g).all| == |g.conditions|
    ensures g.groupType == Any ==> ConvertGroup(g).EngineAny? && |ConvertGroup(g).any| == |g.conditions|
    ensures g.groupType == All ==> forall k :: 0 <= k < |g.conditions| ==> ConvertGroup(g).all[k] == ConvertNode(g.conditions[k])
    ensures g.groupType == Any ==> forall k :: 0 <= k < |g.conditions| ==> ConvertGroup(g).any[k] == ConvertNode(g.conditions[k])
    ensures g.groupType == Not ==>
      ConvertGroup(g) == EngineNot(if g.conditions == [] then None else Some(ConvertNode(g.conditions[0])))
  {
    ConvertChildrenPointwise(g.conditions);
  }

  // ----- which leaves survive conversion -----

  /** The leaf facts of a converted tree, left to right. */
  function EngineFacts(e: EngineCondition): seq<string>
    decreases e
  {
    match e
    case EngineLeaf(f, _, _, _, _) => [f]
    case EngineAll(cs) => EngineListFacts(cs)
    case EngineAny(cs) => EngineListFacts(cs)
    case EngineNot(o) => if o.Some? then EngineFacts(o.value) else []
  }

  function EngineListFacts(cs: seq<EngineCondition>): seq<string>
    decreases cs
  {
    if cs == [] then [] else EngineFacts(cs[0]) + EngineListFacts(cs[1..])
  }

  /** No `not` group anywhere in the tree has more than one child. */
  predicate NodeNotsSingle(n: Node)
    decreases n
  {
    match n
    case Leaf(_) => true
    case Nested(g) => (g.groupType == Not ==> |g.conditions| <= 1) && ChildNotsSingle(g.conditions)
  }

  predicate ChildNotsSingle(cs: seq<Node>)
    decreases cs
  {
    cs == [] || (NodeNotsSingle(cs[0]) && ChildNotsSingle(cs[1..]))
  }

  /** When no `not` group has a second child, conversion keeps every leaf:
      the engine sees exactly the tree's facts, in depth-first order. */
  lemma {:induction false} ConvertKeepsLeaves(n: Node)
    requires NodeNotsSingle(n)
    ensures EngineFacts(ConvertNode(n)) == FactNames(NodeLeaves(n))
    decreases n
  {
    match n
    case Leaf(c) =>
    case Nested(g) =>
      ConvertChildrenKeepLeaves(g.conditions);
      var cs := g.conditions;
      if g.groupType == Not && cs != [] {
        assert cs == [cs[0]];
        assert ChildLeaves(cs) == NodeLeaves(cs[0]) + ChildLeaves(cs[1..]);
        assert ChildLeaves(cs[1..]) == [];
        ConvertKeepsLeaves(cs[0]);
      }
  }

  lemma {:induction false} ConvertChildrenKeepLeaves(cs: seq<Node>)
    requires ChildNotsSingle(cs)
    ensures EngineListFacts(ConvertChildren(cs)) == FactNames(ChildLeaves(cs))
    decreases cs
  {
    if cs != [] {
      ConvertKeepsLeaves(cs[0]);
      ConvertChildrenKeepLeaves(cs[1..]);
      var r := ConvertChildren(cs);
      assert r[1..] == ConvertChildren(cs[1..]);
      FactNamesAppend(NodeLeaves(cs[0]), ChildLeaves(cs[1..]));
    }
  }

  lemma FactNamesAppend(a: seq<Condition>, b: seq<Condition>)
    ensures FactNames(a + b) == FactNames(a) + FactNames(b)
  {
  }

  /** A `not` group with a second child hides it from the engine: the
      converted tree does not depend on any child after the first. */
  lemma NotDropsLaterChildren(id: Id, first: Node, rest: seq<Node>, other: seq<Node>)
    ensures ConvertGroup(ConditionGroup(id, Not, [first] + rest)) ==
            ConvertGroup(ConditionGroup(id, Not, [first] + other))
  {
    ConvertChildrenPointwise([first] + rest);
    ConvertChildrenPointwise([first] + other);
  }

  // ----- rule conversion -----

  /** The event params the engine receives: the rule's own params, with
      `ruleName` and `ruleId` written over any same-named entries. */
  function TaggedParams(r: Rule): map<string, Json> {
    var own := if r.event.params.Some? then r.event.params.value else map[];
    own["ruleName" := JStr(r.name)]["ruleId" := JStr(IdText(r.id))]
  }

  /** `convertRuleToEngine`. */
  function ConvertRule(r: Rule): EngineRule {
    EngineRule(r.id, r.priority, ConvertGroup(r.conditions), EngineEvent(r.event.eventType, TaggedParams(r)))
  }

  /** The engine rule is named by the rule's id, keeps its priority and event
      type, and carries the rule's name and id in its params; every other
      param of the rule is passed through unchanged. */
  lemma ConvertRuleTags(r: Rule)
    ensures ConvertRule(r).name == r.id && ConvertRule(r).priority == r.priority
    ensures ConvertRule(r).event.eventType == r.event.eventType
    ensures ConvertRule(r).event.params["ruleName"] == JStr(r.name)
    ensures ConvertRule(r).event.params["ruleId"] == JStr(IdText(r.id))
    ensures r.event.params.Some? ==>
      ConvertRule(r).event.params.Keys == r.event.params.value.Keys + {"ruleName", "ruleId"}
    ensures r.event.params.None? ==> ConvertRule(r).event.params.Keys == {"ruleName", "ruleId"}
    ensures forall k :: r.event.params.Some? && k in r.event.params.value && k != "ruleName" && k != "ruleId" ==>
      ConvertRule(r).event.params[k] == r.event.params.value[k]
  {
  }

  // ----- fact environment -----

  /** `getDefaultForType`: the zero value of each fact type. */
  function DefaultForType(t: FactType): (v: Json)
    ensures HasType(v, t)
  {
    match t
    case NumberFact => JNum(0.0)
    case BooleanFact => JBool(false)
    case ArrayFact => JArr([])
    case ObjectFact => JObj(map[])
    case StringFact => JStr("")
  }

  /** JavaScript's `a ?? b` when `a` may be missing or `null`. */
  function Coalesce(a: Option<Json>, b: Json): Json {
    if a.Some? && a.value != JNull then a.value else b
  }

  /** `factValues[name] ?? defaultValue ?? getDefaultForType(type)`. */
  function EffectiveValue(supplied: map<string, Json>, f: FactDefinition): Json {
    var given := if f.name in supplied then Some(supplied[f.name]) else None;
    Coalesce(given, Coalesce(f.defaultValue, DefaultForType(f.factType)))
  }

  /** The three-level fallback: a supplied non-null value wins, then a
      non-null declared default, then the type's zero; never `null`. */
  lemma EffectiveValueFallback(supplied: map<string, Json>, f: FactDefinition)
    ensures EffectiveValue(supplied, f) != JNull
    ensures f.name in supplied && supplied[f.name] != JNull ==> EffectiveValue(supplied, f) == supplied[f.name]
    ensures (f.name !in supplied || supplied[f.name] == JNull) && f.defaultValue.Some? && f.defaultValue.value != JNull ==>
      EffectiveValue(supplied, f) == f.defaultValue.value
    ensures (f.name !in supplied || supplied[f.name] == JNull) && (f.defaultValue.None? || f.defaultValue.value == JNull) ==>
      EffectiveValue(supplied, f) == DefaultForType(f.factType)
  {
    var d := DefaultForType(f.factType);
    assert d != JNull;
  }

  /** The environment after the loop has visited `facts`: one entry per
      fact name, a later fact of the same name overwriting an earlier one. */
  function FactEnvironment(supplied: map<string, Json>, facts: seq<FactDefinition>): map<string, Json>
    decreases |facts|
  {
    if facts == [] then map[]
    else
      var last := facts[|facts| - 1];
      FactEnvironment(supplied, facts[..|facts| - 1])[last.name := EffectiveValue(supplied, last)]
  }

  /** The environment's keys are exactly the fact names. */
  lemma {:induction false} FactEnvironmentKeys(supplied: map<string, Json>, facts: seq<FactDefinition>)
    ensures forall k :: k in FactEnvironment(supplied, facts) <==> exists i :: 0 <= i < |facts| && facts[i].name == k
    decreases |facts|
  {
    if facts != [] {
      var n := |facts| - 1;
      var init := facts[..n];
      FactEnvironmentKeys(supplied, init);
      forall k | k in FactEnvironment(supplied, facts)
        ensures exists i :: 0 <= i < |facts| && facts[i].name == k
      {
        if k != facts[n].name {
          assert k in FactEnvironment(supplied, init);
          var i :| 0 <= i < |init| && init[i].name == k;
          assert facts[i].name == k;
        }
      }
      forall k, i | 0 <= i < |facts| && facts[i].name == k
        ensures k in FactEnvironment(supplied, facts)
      {
        if i < n { assert init[i].name == k; }
      }
    }
  }

  /** Each name maps to the effective value of the last fact carrying it. */
  lemma {:induction false} FactEnvironmentLookup(supplied: map<string, Json>, facts: seq<FactDefinition>, i: nat)
    requires i < |facts|
    requires forall j :: i < j < |facts| ==> facts[j].name != facts[i].name
    ensures facts[i].name in FactEnvironment(supplied, facts)
    ensures FactEnvironment(supplied, facts)[facts[i].name] == EffectiveValue(supplied, facts[i])
    decreases |facts|
  {
    var n := |facts| - 1;
    if i < n {
      var init := facts[..n];
      assert init[i] == facts[i];
      forall j | i < j < |init| ensures init[j].name != init[i].name {
        assert init[j] == facts[j];
      }
      FactEnvironmentLookup(supplied, init, i);
    }
  }

  // ----- the run -----

  predicate IsEnabled(r: Rule) { r.enabled }

  function Enabled(): Rule -> bool { (r: Rule) => IsEnabled(r) }

  /** The enabled rules, in rule-set order. */
  function EnabledRules(rules: seq<Rule>): seq<Rule> {
    Seqs.Filter(rules, Enabled())
  }

  /** The converted enabled rules that `addRule` accepted, in order. */
  function AcceptedRules(engine: ForeignEngine, enabled: seq<Rule>): (r: seq<EngineRule>)
    ensures |r| <= |enabled|
  {
    if enabled == [] then []
    else
      var e := ConvertRule(enabled[0]);
      (if engine.accepts(e) then [e] else []) + AcceptedRules(engine, enabled[1..])
  }

  function NamedFor(id: Id): EngineRuleResult -> bool {
    (er: EngineRuleResult) => er.name == id
  }

  /** `engineResults.find(r => r.name === rule.id)?.result ?? false`. */
  function SuccessOf(results: seq<EngineRuleResult>, id: Id): (ok: bool)
    ensures ok ==> exists j :: 0 <= j < |results| && results[j].name == id && results[j].result
    ensures (forall j :: 0 <= j < |results| ==> results[j].name != id) ==> !ok
  {
    var found := Seqs.Find(results, NamedFor(id));
    if found.Some? then found.value.result else false
  }

  /** One result per enabled rule, carrying its id and name. */
  function RuleResults(enabled: seq<Rule>, results: seq<EngineRuleResult>): seq<RuleResult> {
    seq(|enabled|, k requires 0 <= k < |enabled| =>
      RuleResult(enabled[k].id, enabled[k].name, SuccessOf(results, enabled[k].id), []))
  }

  function AsRuleEvent(e: EngineEvent): RuleEvent {
    RuleEvent(e.eventType, Some(e.params))
  }

  function AsRuleEvents(events: seq<EngineEvent>): seq<RuleEvent> {
    seq(|events|, k requires 0 <= k < |events| => AsRuleEvent(events[k]))
  }

  /** The whole run as a function of its inputs. */
  function RunSpec(engine: ForeignEngine, rules: seq<Rule>, facts: seq<FactDefinition>,
                   supplied: map<string, Json>): Result<EngineRunResult, Thrown>
  {
    var enabled := EnabledRules(rules);
    match engine.run(AcceptedRules(engine, enabled), FactEnvironment(supplied, facts))
    case Threw(err) => Failure(err)
    case Completed(events, results) => Success(EngineRunResult(AsRuleEvents(events), RuleResults(enabled, results)))
  }

  lemma AcceptedRulesStep(engine: ForeignEngine, enabled: seq<Rule>, i: nat)
    requires i < |enabled|
    ensures AcceptedRules(engine, enabled[i..]) ==
      (if engine.accepts(ConvertRule(enabled[i])) then [ConvertRule(enabled[i])] else [])
      + AcceptedRules(engine, enabled[i + 1..])
  {
    assert enabled[i..][1..] == enabled[i + 1..];
  }

  /** The first loop of `runEngine`: add each enabled rule, skipping those
      whose `addRule` throws. */
  method AddEnabledRules(engine: ForeignEngine, enabled: seq<Rule>) returns (added: seq<EngineRule>)
    ensures added == AcceptedRules(engine, enabled)
  {
    added := [];
    for i := 0 to |enabled|
      invariant added + AcceptedRules(engine, enabled[i..]) == AcceptedRules(engine, enabled)
    {
      AcceptedRulesStep(engine, enabled, i);
      var e := ConvertRule(enabled[i]);
      var rest := AcceptedRules(engine, enabled[i + 1..]);
      if engine.accepts(e) {
        assert added + ([e] + rest) == (added + [e]) + rest;
        added := added + [e];
      } else {
        assert [] + rest == rest;
      }
    }
    assert enabled[|enabled|..] == [];
  }

  /** The second loop of `runEngine`: fill `allFacts` fact by fact. */
  method BuildFactEnvironment(facts: seq<FactDefinition>, factValues: map<string, Json>)
    returns (allFacts: map<string, Json>)
    ensures allFacts == FactEnvironment(factValues, facts)
  {
    allFacts := map[];
    for i := 0 to |facts|
      invariant allFacts == FactEnvironment(factValues, facts[..i])
    {
      assert facts[..i + 1][..i] == facts[..i];
      allFacts := allFacts[facts[i].name := EffectiveValue(factValues, facts[i])];
    }
    assert facts[..|facts|] == facts;
  }

  /** `runEngine`: add the enabled rules, fill the fact environment, run,
      and map the engine's results back onto the enabled rules; an engine
      failure is passed on to the caller. */
  method RunEngine(engine: ForeignEngine, rules: seq<Rule>, facts: seq<FactDefinition>,
                   factValues: map<string, Json>)
    returns (r: Result<EngineRunResult, Thrown>)
    ensures r == RunSpec(engine, rules, facts, factValues)
  {
    var enabled := EnabledRules(rules);
    var added := AddEnabledRules(engine, enabled);
    var allFacts := BuildFactEnvironment(facts, factValues);
    var outcome := engine.run(added, allFacts);
    if outcome.Threw? {
      r := Failure(outcome.error);
    } else {
      r := Success(EngineRunResult(AsRuleEvents(outcome.events), RuleResults(enabled, outcome.results)));
    }
  }

  /** One result per enabled rule, in order, with the rule's id and name; a
      rule the engine reports nothing for counts as not fired, otherwise the
      first report for its id decides. */
  lemma RuleResultsPerRule(enabled: seq<Rule>, results: seq<EngineRuleResult>)
    ensures |RuleResults(enabled, results)| == |enabled|
    ensures forall k :: 0 <= k < |enabled| ==>
      RuleResults(enabled, results)[k].ruleId == enabled[k].id &&
      RuleResults(enabled, results)[k].ruleName == enabled[k].name &&
      RuleResults(enabled, results)[k].conditions == []
    ensures forall k :: 0 <= k < |enabled| && (forall j :: 0 <= j < |results| ==> results[j].name != enabled[k].id) ==>
      !RuleResults(enabled, results)[k].success
    ensures forall k, j ::
      (0 <= k < |enabled| && 0 <= j < |results| && results[j].name == enabled[k].id &&
       (forall i :: 0 <= i < j ==> results[i].name != enabled[k].id)) ==>
      RuleResults(enabled, results)[k].success == results[j].result
  {
    forall k, j | 0 <= k < |enabled| && 0 <= j < |results| && results[j].name == enabled[k].id &&
      (forall i :: 0 <= i < j ==> results[i].name != enabled[k].id)
      ensures RuleResults(enabled, results)[k].success == results[j].result
    {
      var found := Seqs.Find(results, NamedFor(enabled[k].id));
      assert NamedFor(enabled[k].id)(results[j]);
      var m :| 0 <= m < |results| && results[m] == found.value && NamedFor(enabled[k].id)(results[m])
        && forall i :: 0 <= i < m ==> !NamedFor(enabled[k].id)(results[i]);
      assert m == j;
    }
  }

  /** Only enabled rules are run and reported, in rule-set order; the run
      fails exactly when the engine throws. */
  lemma RunReportsEnabledRules(engine: ForeignEngine, rules: seq<Rule>, facts: seq<FactDefinition>,
                               supplied: map<string, Json>)
    ensures forall k :: 0 <= k < |EnabledRules(rules)| ==> EnabledRules(rules)[k].enabled
    ensures forall k :: 0 <= k < |rules| && rules[k].enabled ==> rules[k] in EnabledRules(rules)
    ensures RunSpec(engine, rules, facts, supplied).Success? ==>
      RunSpec(engine, rules, facts, supplied).value.results ==
        RuleResults(EnabledRules(rules), engine.run(AcceptedRules(engine, EnabledRules(rules)), FactEnvironment(supplied, facts)).results)
    ensures RunSpec(engine, rules, facts, supplied).Failure? <==>
      engine.run(AcceptedRules(engine, EnabledRules(rules)), FactEnvironment(supplied, facts)).Threw?
  {
    Seqs.FilterMembers(rules, Enabled());
    forall k | 0 <= k < |EnabledRules(rules)| ensures EnabledRules(rules)[k].enabled {
      assert Enabled()(EnabledRules(rules)[k]);
    }
  }

  // ----- dangling fact references -----

  const UnknownFactPrefix: string := "Condition references unknown fact: "

  /** One message per leaf whose fact is not a registered name, in order. */
  function UnknownFactErrors(leaves: seq<Condition>, names: set<string>): seq<string> {
    if leaves == [] then []
    else
      (if leaves[0].fact in names then [] else [UnknownFactPrefix + leaves[0].fact])
      + UnknownFactErrors(leaves[1..], names)
  }

  lemma {:induction false} UnknownFactErrorsAppend(a: seq<Condition>, b: seq<Condition>, names: set<string>)
    ensures UnknownFactErrors(a + b, names) == UnknownFactErrors(a, names) + UnknownFactErrors(b, names)
  {
    if a == [] {
      assert a + b == b;
    } else {
      assert (a + b)[1..] == a[1..] + b;
      UnknownFactErrorsAppend(a[1..], b, names);
    }
  }

  /** No message exactly when every leaf names a registered fact; there is
      never more than one message per leaf. */
  lemma {:induction false} UnknownFactErrorsEmptyIff(leaves: seq<Condition>, names: set<string>)
    ensures UnknownFactErrors(leaves, names) == [] <==> forall k :: 0 <= k < |leaves| ==> leaves[k].fact in names
    ensures |UnknownFactErrors(leaves, names)| <= |leaves|
  {
    if leaves != [] {
      UnknownFactErrorsEmptyIff(leaves[1..], names);
      if forall k :: 0 <= k < |leaves[1..]| ==> leaves[1..][k].fact in names {
        forall k | 1 <= k < |leaves| ensures leaves[k].fact in names {
          assert leaves[k] == leaves[1..][k - 1];
        }
      }
    }
  }

  lemma UnknownFactErrorsSingle(c: Condition, names: set<string>)
    ensures NodeLeaves(Leaf(c)) == [c]
    ensures UnknownFactErrors([c], names) == if c.fact in names then [] else [UnknownFactPrefix + c.fact]
  {
    assert [c][1..] == [];
  }

  lemma ChildLeavesPrefix(cs: seq<Node>, i: nat)
    requires i < |cs|
    ensures ChildLeaves(cs[..i + 1]) == ChildLeaves(cs[..i]) + NodeLeaves(cs[i])
  {
    assert cs[..i + 1] == cs[..i] + [cs[i]];
    ChildLeavesAppend(cs[..i], [cs[i]]);
    assert [cs[i]][1..] == [];
  }

  /** The recursive walk, appending to `errors` as it goes. */
  method ValidateGroup(g: ConditionGroup, factNames: set<string>, errors: seq<string>)
    returns (out: seq<string>)
    ensures out == errors + UnknownFactErrors(GroupLeaves(g), factNames)
    decreases g
  {
    out := errors;
    var cs := g.conditions;
    for i := 0 to |cs|
      invariant out == errors + UnknownFactErrors(ChildLeaves(cs[..i]), factNames)
    {
      ghost var before := out;
      var node := cs[i];
      if node.Nested? {
        out := ValidateGroup(node.group, factNames, out);
      } else {
        UnknownFactErrorsSingle(node.condition, factNames);
        if node.condition.fact !in factNames {
          out := out + [UnknownFactPrefix + node.condition.fact];
        }
      }
      assert out == before + UnknownFactErrors(NodeLeaves(node), factNames);
      ValidateStep(errors, cs, i, factNames);
    }
    assert cs[..|cs|] == cs;
  }

  /** One more child of the walk adds that child's messages. */
  lemma ValidateStep(errors: seq<string>, cs: seq<Node>, i: nat, names: set<string>)
    requires i < |cs|
    ensures errors + UnknownFactErrors(ChildLeaves(cs[..i + 1]), names) ==
            errors + UnknownFactErrors(ChildLeaves(cs[..i]), names) + UnknownFactErrors(NodeLeaves(cs[i]), names)
  {
    ChildLeavesPrefix(cs, i);
    UnknownFactErrorsAppend(ChildLeaves(cs[..i]), NodeLeaves(cs[i]), names);
  }

  /** The registered fact names. */
  function NameSet(facts: seq<FactDefinition>): (names: set<string>)
    ensures forall k :: 0 <= k < |facts| ==> facts[k].name in names
    ensures forall n :: n in names ==> exists k :: 0 <= k < |facts| && facts[k].name == n
  {
    set k | 0 <= k < |facts| :: facts[k].name
  }

  /** `validateRuleConditions`: one message per leaf of the rule whose fact
      is not declared, in depth-first left-to-right order. */
  method ValidateRuleConditions(rule: Rule, facts: seq<FactDefinition>) returns (errors: seq<string>)
    ensures errors == UnknownFactErrors(GroupLeaves(rule.conditions), NameSet(facts))
  {
    errors := ValidateGroup(rule.conditions, NameSet(facts), []);
  }

  /** A rule validates cleanly exactly when every leaf names a declared fact. */
  lemma ValidationCleanIff(rule: Rule, facts: seq<FactDefinition>)
    ensures UnknownFactErrors(GroupLeaves(rule.conditions), NameSet(facts)) == [] <==>
      forall k :: 0 <= k < |GroupLeaves(rule.conditions)| ==>
        exists j :: 0 <= j < |facts| && facts[j].name == GroupLeaves(rule.conditions)[k].fact
  {
    UnknownFactErrorsEmptyIff(GroupLeaves(rule.conditions), NameSet(facts));
  }
}
