/** The application store: the declared facts, the rule set and the last run
    report, with the actions that edit them. The uuid generator is modelled
    as a supply of identifiers above every identifier in use. */
module Store {
  import opened Wrappers
  import opened Types
  import Seqs

  // ----- partial updates (`{ ...current, ...updates }`) -----

  /** One field of a `Partial<T>`: absent, or given a value. */
  datatype Field<T> = Keep | Put(value: T)

  function Pick<T>(f: Field<T>, current: T): T {
    match f
    case Keep => current
    case Put(v) => v
  }

  /** `{ ...p, ...q }` for two partial updates: `q` wins where it is given. */
  function Over<T>(p: Field<T>, q: Field<T>): Field<T> {
    if q.Put? then q else p
  }

  lemma PickOver<T>(p: Field<T>, q: Field<T>, x: T)
    ensures Pick(q, Pick(p, x)) == Pick(Over(p, q), x)
    ensures Pick(p, Pick(p, x)) == Pick(p, x)
    ensures Pick(Keep, x) == x
  {
  }

  datatype FactPatch = FactPatch(
    id: Field<Id>, name: Field<string>, factType: Field<FactType>,
    defaultValue: Field<Option<Json>>, description: Field<Option<string>>)

  const NoFactChanges: FactPatch := FactPatch(Keep, Keep, Keep, Keep, Keep)

  function ApplyFactPatch(f: FactDefinition, p: FactPatch): FactDefinition {
    FactDefinition(Pick(p.id, f.id), Pick(p.name, f.name), Pick(p.factType, f.factType),
                   Pick(p.defaultValue, f.defaultValue), Pick(p.description, f.description))
  }

  function ComposeFactPatches(p: FactPatch, q: FactPatch): FactPatch {
    FactPatch(Over(p.id, q.id), Over(p.name, q.name), Over(p.factType, q.factType),
              Over(p.defaultValue, q.defaultValue), Over(p.description, q.description))
  }

  /** Spreading laws: the empty update changes nothing, an update applied twice
      is applied once, two updates in a row are their merge, and a field the
      update leaves out keeps its value. */
  lemma FactPatchLaws(f: FactDefinition, p: FactPatch, q: FactPatch)
    ensures ApplyFactPatch(f, NoFactChanges) == f
    ensures ApplyFactPatch(ApplyFactPatch(f, p), p) == ApplyFactPatch(f, p)
    ensures ApplyFactPatch(ApplyFactPatch(f, p), q) == ApplyFactPatch(f, ComposeFactPatches(p, q))
    ensures p.name.Keep? ==> ApplyFactPatch(f, p).name == f.name
    ensures p.id.Keep? ==> ApplyFactPatch(f, p).id == f.id
  {
  }

  datatype RulePatch = RulePatch(
    id: Field<Id>, name: Field<string>, description: Field<Option<string>>, priority: Field<int>,
    conditions: Field<ConditionGroup>, event: Field<RuleEvent>, enabled: Field<bool>)

  const NoRuleChanges: RulePatch := RulePatch(Keep, Keep, Keep, Keep, Keep, Keep, Keep)

  function ApplyRulePatch(r: Rule, p: RulePatch): Rule {
    Rule(Pick(p.id, r.id), Pick(p.name, r.name), Pick(p.description, r.description),
         Pick(p.priority, r.priority), Pick(p.conditions, r.conditions), Pick(p.event, r.event),
         Pick(p.enabled, r.enabled))
  }

  function ComposeRulePatches(p: RulePatch, q: RulePatch): RulePatch {
    RulePatch(Over(p.id, q.id), Over(p.name, q.name), Over(p.description, q.description),
              Over(p.priority, q.priority), Over(p.conditions, q.conditions), Over(p.event, q.event),
              Over(p.enabled, q.enabled))
  }

  /** The same spreading laws for rules. */
  lemma RulePatchLaws(r: Rule, p: RulePatch, q: RulePatch)
    ensures ApplyRulePatch(r, NoRuleChanges) == r
    ensures ApplyRulePatch(ApplyRulePatch(r, p), p) == ApplyRulePatch(r, p)
    ensures ApplyRulePatch(ApplyRulePatch(r, p), q) == ApplyRulePatch(r, ComposeRulePatches(p, q))
    ensures p.id.Keep? ==> ApplyRulePatch(r, p).id == r.id
    ensures p.conditions.Keep? ==> ApplyRulePatch(r, p).conditions == r.conditions
  {
  }

  // ----- lookups by id -----

  function FactHasId(id: Id): FactDefinition -> bool { (f: FactDefinition) => f.id == id }
  function FactLacksId(id: Id): FactDefinition -> bool { (f: FactDefinition) => f.id != id }
  function RuleHasId(id: Id): Rule -> bool { (r: Rule) => r.id == id }
  function RuleLacksId(id: Id): Rule -> bool { (r: Rule) => r.id != id }

  /** `updateFact` on a list: merge the update into the first fact with that
      id, if there is one. */
  function UpdatedFacts(facts: seq<FactDefinition>, id: Id, p: FactPatch): seq<FactDefinition> {
    var i := Seqs.FindIndex(facts, FactHasId(id));
    if i == -1 then facts else facts[i := ApplyFactPatch(facts[i], p)]
  }

  /** An unknown id changes nothing; otherwise exactly the first fact with
      that id is merged with the update and every other fact is unchanged. */
  lemma UpdatedFactsFrame(facts: seq<FactDefinition>, id: Id, p: FactPatch)
    ensures |UpdatedFacts(facts, id, p)| == |facts|
    ensures (forall k :: 0 <= k < |facts| ==> facts[k].id != id) ==> UpdatedFacts(facts, id, p) == facts
    ensures forall i :: 0 <= i < |facts| && facts[i].id == id && (forall k :: 0 <= k < i ==> facts[k].id != id) ==>
      UpdatedFacts(facts, id, p)[i] == ApplyFactPatch(facts[i], p) &&
      forall k :: 0 <= k < |facts| && k != i ==> UpdatedFacts(facts, id, p)[k] == facts[k]
  {
    var j := Seqs.FindIndex(facts, FactHasId(id));
    forall i | 0 <= i < |facts| && facts[i].id == id && (forall k :: 0 <= k < i ==> facts[k].id != id)
      ensures j == i
    {
      assert FactHasId(id)(facts[i]);
    }
  }

  function UpdatedRules(rules: seq<Rule>, id: Id, p: RulePatch): seq<Rule> {
    var i := Seqs.FindIndex(rules, RuleHasId(id));
    if i == -1 then rules else rules[i := ApplyRulePatch(rules[i], p)]
  }

  /** The same frame for rules. */
  lemma UpdatedRulesFrame(rules: seq<Rule>, id: Id, p: RulePatch)
    ensures |UpdatedRules(rules, id, p)| == |rules|
    ensures (forall k :: 0 <= k < |rules| ==> rules[k].id != id) ==> UpdatedRules(rules, id, p) == rules
    ensures forall i :: 0 <= i < |rules| && rules[i].id == id && (forall k :: 0 <= k < i ==> rules[k].id != id) ==>
      UpdatedRules(rules, id, p)[i] == ApplyRulePatch(rules[i], p) &&
      forall k :: 0 <= k < |rules| && k != i ==> UpdatedRules(rules, id, p)[k] == rules[k]
  {
    var j := Seqs.FindIndex(rules, RuleHasId(id));
    forall i | 0 <= i < |rules| && rules[i].id == id && (forall k :: 0 <= k < i ==> rules[k].id != id)
      ensures j == i
    {
      assert RuleHasId(id)(rules[i]);
    }
  }

  /** Deleting by id removes exactly the facts with that id: every other fact
      remains, as often as before and in its original order, and nothing is
      added. The kept facts are those at the increasing positions listing
      every fact without the id. */
  lemma DeletedFacts(facts: seq<FactDefinition>, id: Id)
    ensures forall k :: 0 <= k < |Seqs.Filter(facts, FactLacksId(id))| ==>
      Seqs.Filter(facts, FactLacksId(id))[k].id != id
    ensures forall k :: 0 <= k < |facts| && facts[k].id != id ==> facts[k] in Seqs.Filter(facts, FactLacksId(id))
    ensures multiset(Seqs.Filter(facts, FactLacksId(id))) <= multiset(facts)
    ensures forall x: FactDefinition :: x.id != id ==>
      multiset(Seqs.Filter(facts, FactLacksId(id)))[x] == multiset(facts)[x]
    ensures |Seqs.FilterPositions(facts, FactLacksId(id))| == |Seqs.Filter(facts, FactLacksId(id))|
    ensures forall k :: 0 <= k < |Seqs.Filter(facts, FactLacksId(id))| ==>
      Seqs.FilterPositions(facts, FactLacksId(id))[k] < |facts| &&
      Seqs.Filter(facts, FactLacksId(id))[k] == facts[Seqs.FilterPositions(facts, FactLacksId(id))[k]]
    ensures forall k, m :: 0 <= k < m < |Seqs.FilterPositions(facts, FactLacksId(id))| ==>
      Seqs.FilterPositions(facts, FactLacksId(id))[k] < Seqs.FilterPositions(facts, FactLacksId(id))[m]
    ensures forall k :: 0 <= k < |facts| && facts[k].id != id ==> k in Seqs.FilterPositions(facts, FactLacksId(id))
  {
    Seqs.FilterMembers(facts, FactLacksId(id));
    Seqs.FilterSubMultiset(facts, FactLacksId(id));
    Seqs.FilterCount(facts, FactLacksId(id));
    Seqs.FilterKeepsOrder(facts, FactLacksId(id));
    Seqs.FilterPositionsIncrease(facts, FactLacksId(id));
    Seqs.FilterPositionsComplete(facts, FactLacksId(id));
    forall k | 0 <= k < |Seqs.Filter(facts, FactLacksId(id))|
      ensures Seqs.Filter(facts, FactLacksId(id))[k].id != id
    {
      assert FactLacksId(id)(Seqs.Filter(facts, FactLacksId(id))[k]);
    }
    forall k | 0 <= k < |facts| && facts[k].id != id
      ensures facts[k] in Seqs.Filter(facts, FactLacksId(id)) && k in Seqs.FilterPositions(facts, FactLacksId(id))
    {
      assert FactLacksId(id)(facts[k]);
    }
    forall x: FactDefinition | x.id != id
      ensures multiset(Seqs.Filter(facts, FactLacksId(id)))[x] == multiset(facts)[x]
    {
      assert FactLacksId(id)(x);
    }
  }

  /** Deleting by id removes exactly the rules with that id: every other rule
      remains, as often as before and in its original order, and nothing is
      added. The kept rules are those at the increasing positions listing
      every rule without the id. */
  lemma DeletedRules(rules: seq<Rule>, id: Id)
    ensures forall k :: 0 <= k < |Seqs.Filter(rules, RuleLacksId(id))| ==>
      Seqs.Filter(rules, RuleLacksId(id))[k].id != id
    ensures forall k :: 0 <= k < |rules| && rules[k].id != id ==> rules[k] in Seqs.Filter(rules, RuleLacksId(id))
    ensures multiset(Seqs.Filter(rules, RuleLacksId(id))) <= multiset(rules)
    ensures forall x: Rule :: x.id != id ==> multiset(Seqs.Filter(rules, RuleLacksId(id)))[x] == multiset(rules)[x]
    ensures |Seqs.FilterPositions(rules, RuleLacksId(id))| == |Seqs.Filter(rules, RuleLacksId(id))|
    ensures forall k :: 0 <= k < |Seqs.Filter(rules, RuleLacksId(id))| ==>
      Seqs.FilterPositions(rules, RuleLacksId(id))[k] < |rules| &&
      Seqs.Filter(rules, RuleLacksId(id))[k] == rules[Seqs.FilterPositions(rules, RuleLacksId(id))[k]]
    ensures forall k, m :: 0 <= k < m < |Seqs.FilterPositions(rules, RuleLacksId(id))| ==>
      Seqs.FilterPositions(rules, RuleLacksId(id))[k] < Seqs.FilterPositions(rules, RuleLacksId(id))[m]
    ensures forall k :: 0 <= k < |rules| && rules[k].id != id ==> k in Seqs.FilterPositions(rules, RuleLacksId(id))
  {
    Seqs.FilterMembers(rules, RuleLacksId(id));
    Seqs.FilterSubMultiset(rules, RuleLacksId(id));
    Seqs.FilterCount(rules, RuleLacksId(id));
    Seqs.FilterKeepsOrder(rules, RuleLacksId(id));
    Seqs.FilterPositionsIncrease(rules, RuleLacksId(id));
    Seqs.FilterPositionsComplete(rules, RuleLacksId(id));
    forall k | 0 <= k < |Seqs.Filter(rules, RuleLacksId(id))|
      ensures Seqs.Filter(rules, RuleLacksId(id))[k].id != id
    {
      assert RuleLacksId(id)(Seqs.Filter(rules, RuleLacksId(id))[k]);
    }
    forall k | 0 <= k < |rules| && rules[k].id != id
      ensures rules[k] in Seqs.Filter(rules, RuleLacksId(id)) && k in Seqs.FilterPositions(rules, RuleLacksId(id))
    {
      assert RuleLacksId(id)(rules[k]);
    }
    forall x: Rule | x.id != id
      ensures multiset(Seqs.Filter(rules, RuleLacksId(id)))[x] == multiset(rules)[x]
    {
      assert RuleLacksId(id)(x);
    }
  }

  // ----- fresh identifiers -----

  /** `count` consecutive identifiers from `lo`. */
  function IdRange(lo: Id, count: nat): (r: seq<Id>)
    ensures |r| == count
  {
    seq(count, k requires 0 <= k < count => lo + k)
  }

  lemma IdRangeConcat(lo: Id, m: nat, n: nat)
    ensures IdRange(lo, m) + IdRange(lo + m, n) == IdRange(lo, m + n)
  {
  }

  /** Consecutive identifiers are pairwise distinct and at least `lo`. */
  lemma IdRangeDistinct(lo: Id, count: nat)
    ensures forall i, j :: 0 <= i < j < count ==> IdRange(lo, count)[i] != IdRange(lo, count)[j]
    ensures forall i :: 0 <= i < count ==> IdRange(lo, count)[i] >= lo
  {
  }

  /** An identifier above every element of `ids`. */
  function Above(ids: seq<Id>): (b: Id)
    ensures forall k :: 0 <= k < |ids| ==> ids[k] < b
  {
    if ids == [] then 0
    else
      var rest := Above(ids[1..]);
      assert forall k :: 1 <= k < |ids| ==> ids[k] == ids[1..][k - 1];
      if ids[0] < rest then rest else ids[0] + 1
  }

  function FactIds(facts: seq<FactDefinition>): seq<Id> {
    seq(|facts|, k requires 0 <= k < |facts| => facts[k].id)
  }

  /** Every identifier the rules own, rule by rule. */
  function AllRuleIds(rules: seq<Rule>): seq<Id> {
    if rules == [] then [] else RuleIds(rules[0]) + AllRuleIds(rules[1..])
  }

  /** The identifiers of each rule are among those of the rule set. */
  lemma {:induction false} AllRuleIdsContains(rules: seq<Rule>, i: nat, k: nat)
    requires i < |rules| && k < |RuleIds(rules[i])|
    ensures RuleIds(rules[i])[k] in AllRuleIds(rules)
  {
    if i > 0 {
      AllRuleIdsContains(rules[1..], i - 1, k);
      assert rules[1..][i - 1] == rules[i];
    }
  }

  // ----- regenerating identifiers, in the order the copy draws them -----

  /** A node with fresh identifiers drawn from `next` on: a group takes its
      own identifier before its children's, children left to right. */
  function RegenNode(n: Node, next: Id): (Node, Id)
    decreases n
  {
    match n
    case Leaf(c) => (Leaf(c.(id := next)), next + 1)
    case Nested(g) =>
      var (cs, after) := RegenChildren(g.conditions, next + 1);
      (Nested(ConditionGroup(next, g.groupType, cs)), after)
  }

  function RegenChildren(cs: seq<Node>, next: Id): (seq<Node>, Id)
    decreases cs
  {
    if cs == [] then ([], next)
    else
      var (head, mid) := RegenNode(cs[0], next);
      var (tail, after) := RegenChildren(cs[1..], mid);
      ([head] + tail, after)
  }

  /** `regenerateIds`: the group with fresh identifiers from `next` on, and
      the first identifier left unused. */
  function RegenerateIds(g: ConditionGroup, next: Id): (ConditionGroup, Id) {
    var (cs, after) := RegenChildren(g.conditions, next + 1);
    (ConditionGroup(next, g.groupType, cs), after)
  }

  /** Regeneration keeps the shape: every group's combinator and every leaf's
      fact, operator, value, path and params. */
  lemma {:induction false} RegenNodeShape(n: Node, next: Id)
    ensures NodeShape(RegenNode(n, next).0) == NodeShape(n)
    decreases n
  {
    match n
    case Leaf(c) =>
    case Nested(g) => RegenChildrenShape(g.conditions, next + 1);
  }

  lemma {:induction false} RegenChildrenShape(cs: seq<Node>, next: Id)
    ensures ChildShapes(RegenChildren(cs, next).0) == ChildShapes(cs)
    decreases cs
  {
    if cs != [] {
      var (head, mid) := RegenNode(cs[0], next);
      var (tail, after) := RegenChildren(cs[1..], mid);
      RegenNodeShape(cs[0], next);
      RegenChildrenShape(cs[1..], mid);
      assert RegenChildren(cs, next).0 == [head] + tail;
      assert ([head] + tail)[1..] == tail;
    }
  }

  /** Regeneration draws exactly one identifier per node, consecutively in
      pre-order: the copy's identifiers are `next`, `next + 1`, ... */
  lemma {:induction false} RegenNodeIds(n: Node, next: Id)
    ensures NodeIds(RegenNode(n, next).0) == IdRange(next, |NodeIds(n)|)
    ensures RegenNode(n, next).1 == next + |NodeIds(n)|
    decreases n
  {
    match n
    case Leaf(c) =>
    case Nested(g) =>
      RegenChildrenIds(g.conditions, next + 1);
      IdRangeConcat(next, 1, |ChildIds(g.conditions)|);
  }

  lemma {:induction false} RegenChildrenIds(cs: seq<Node>, next: Id)
    ensures ChildIds(RegenChildren(cs, next).0) == IdRange(next, |ChildIds(cs)|)
    ensures RegenChildren(cs, next).1 == next + |ChildIds(cs)|
    decreases cs
  {
    if cs != [] {
      var (head, mid) := RegenNode(cs[0], next);
      var (tail, after) := RegenChildren(cs[1..], mid);
      RegenNodeIds(cs[0], next);
      RegenChildrenIds(cs[1..], mid);
      var r := [head] + tail;
      assert RegenChildren(cs, next).0 == r;
      assert r[0] == head && r[1..] == tail;
      IdRangeConcat(next, |NodeIds(cs[0])|, |ChildIds(cs[1..])|);
    }
  }

  lemma RegenerateIdsFacts(g: ConditionGroup, next: Id)
    ensures GroupShape(RegenerateIds(g, next).0) == GroupShape(g)
    ensures GroupIds(RegenerateIds(g, next).0) == IdRange(next, |GroupIds(g)|)
    ensures RegenerateIds(g, next).1 == next + |GroupIds(g)|
  {
    RegenChildrenShape(g.conditions, next + 1);
    RegenChildrenIds(g.conditions, next + 1);
    IdRangeConcat(next, 1, |ChildIds(g.conditions)|);
  }

  // ----- duplication -----

  /** The copy `duplicateRule` appends: the rule's own identifier is drawn
      first, then the tree's; the name gets a ` (Copy)` suffix. */
  function DuplicateOf(r: Rule, base: Id): Rule {
    r.(id := base, name := r.name + " (Copy)", conditions := RegenerateIds(r.conditions, base + 1).0)
  }

  /** The first identifier left unused after duplicating. */
  function DuplicateEnd(r: Rule, base: Id): Id {
    RegenerateIds(r.conditions, base + 1).1
  }

  /** The copy keeps every field but the identifiers and the name, keeps the
      tree's shape, and owns exactly the identifiers `base`, `base + 1`, ...,
      one per identifier of the original. */
  lemma DuplicateOfFacts(r: Rule, base: Id)
    ensures DuplicateOf(r, base).name == r.name + " (Copy)"
    ensures DuplicateOf(r, base).description == r.description
    ensures DuplicateOf(r, base).priority == r.priority
    ensures DuplicateOf(r, base).event == r.event
    ensures DuplicateOf(r, base).enabled == r.enabled
    ensures GroupShape(DuplicateOf(r, base).conditions) == GroupShape(r.conditions)
    ensures RuleIds(DuplicateOf(r, base)) == IdRange(base, |RuleIds(r)|)
    ensures DuplicateEnd(r, base) == base + |RuleIds(r)|
  {
    RegenerateIdsFacts(r.conditions, base + 1);
    IdRangeConcat(base, 1, |GroupIds(r.conditions)|);
  }

  // ----- moving one element (two `splice` calls) -----

  /** Where `splice(start, ...)` starts on a list of length `len`: negative
      values count from the end, and both ends are clamped. */
  function SpliceStart(start: int, len: nat): (i: nat)
    ensures i <= len
    ensures 0 <= start <= len ==> i == start
  {
    if start < 0 then (if len + start < 0 then 0 else len + start)
    else if start > len then len
    else start
  }

  function RemoveAt<T>(s: seq<T>, i: nat): seq<T>
    requires i < |s|
  {
    s[..i] + s[i + 1..]
  }

  /** Remove the element at `from`, then insert it at `to` in what remains. */
  function Move<T>(s: seq<T>, from: nat, to: int): seq<T>
    requires from < |s|
  {
    var rest := RemoveAt(s, from);
    var at := SpliceStart(to, |rest|);
    rest[..at] + [s[from]] + rest[at..]
  }

  /** The moved element lands at the target position, taking it out again
      gives the list without it, and no element is gained or lost. */
  lemma MoveFacts<T>(s: seq<T>, from: nat, to: int)
    requires from < |s|
    ensures |Move(s, from, to)| == |s|
    ensures Move(s, from, to)[SpliceStart(to, |s| - 1)] == s[from]
    ensures RemoveAt(Move(s, from, to), SpliceStart(to, |s| - 1)) == RemoveAt(s, from)
    ensures multiset(Move(s, from, to)) == multiset(s)
  {
    var rest := RemoveAt(s, from);
    assert |rest| == |s| - 1;
    var at := SpliceStart(to, |rest|);
    var m := Move(s, from, to);
    assert m == rest[..at] + [s[from]] + rest[at..];
    assert m[at] == s[from];
    assert RemoveAt(m, at) == rest by {
      assert m[..at] == rest[..at];
      assert m[at + 1..] == rest[at..];
      assert rest[..at] + rest[at..] == rest;
    }
    MoveKeepsMultiset(s, from, to);
  }

  lemma MoveKeepsMultiset<T>(s: seq<T>, from: nat, to: int)
    requires from < |s|
    ensures multiset(Move(s, from, to)) == multiset(s)
  {
    var rest := RemoveAt(s, from);
    var at := SpliceStart(to, |rest|);
    assert rest[..at] + rest[at..] == rest;
    assert s == s[..from] + [s[from]] + s[from + 1..];
    calc {
      multiset(Move(s, from, to));
      multiset(rest[..at]) + multiset([s[from]]) + multiset(rest[at..]);
      multiset(rest) + multiset([s[from]]);
      multiset(s[..from]) + multiset(s[from + 1..]) + multiset([s[from]]);
      multiset(s);
    }
  }

  // ----- the store -----

  /** What `exportData` returns and `importData` takes. */
  datatype StoreData = StoreData(facts: seq<FactDefinition>, rules: seq<Rule>)

  class EngineStore {
    var facts: seq<FactDefinition>
    var rules: seq<Rule>
    var lastRunResult: Option<EngineRunResult>
    /** The identifier supply standing for `uuidv4`. */
    var nextId: Id

    constructor ()
      ensures facts == [] && rules == [] && lastRunResult == None && nextId == 0
    {
      facts := [];
      rules := [];
      lastRunResult := None;
      nextId := 0;
    }

    /** Every identifier in use: facts, rules and all their tree nodes. */
    function UsedIds(): seq<Id>
      reads this
    {
      FactIds(facts) + AllRuleIds(rules)
    }

    /** The next identifier the supply hands out: above every one in use, so
        a drawn identifier never collides with an existing one. */
    function FreshBase(): (b: Id)
      reads this
      ensures b >= nextId
      ensures forall k :: 0 <= k < |UsedIds()| ==> UsedIds()[k] < b
    {
      var bound := Above(UsedIds());
      if nextId < bound then bound else nextId
    }

    /** `addFact`: append the fact with a fresh identifier. */
    method AddFact(f: FactInput)
      modifies this
      ensures facts == old(facts) + [FactDefinition(old(FreshBase()), f.name, f.factType, f.defaultValue, f.description)]
      ensures nextId == old(FreshBase()) + 1
      ensures rules == old(rules) && lastRunResult == old(lastRunResult)
    {
      var id := FreshBase();
      facts := facts + [FactDefinition(id, f.name, f.factType, f.defaultValue, f.description)];
      nextId := id + 1;
    }

    /** `updateFact`. */
    method UpdateFact(id: Id, p: FactPatch)
      modifies this
      ensures facts == UpdatedFacts(old(facts), id, p)
      ensures rules == old(rules) && lastRunResult == old(lastRunResult) && nextId == old(nextId)
    {
      var index := Seqs.FindIndex(facts, FactHasId(id));
      if index != -1 {
        facts := facts[index := ApplyFactPatch(facts[index], p)];
      }
    }

    /** `deleteFact`. */
    method DeleteFact(id: Id)
      modifies this
      ensures facts == Seqs.Filter(old(facts), FactLacksId(id))
      ensures rules == old(rules) && lastRunResult == old(lastRunResult) && nextId == old(nextId)
    {
      facts := Seqs.Filter(facts, FactLacksId(id));
    }

    /** `addRule`: append the rule with a fresh identifier. */
    method AddRule(r: RuleInput)
      modifies this
      ensures rules == old(rules) + [Rule(old(FreshBase()), r.name, r.description, r.priority, r.conditions, r.event, r.enabled)]
      ensures nextId == old(FreshBase()) + 1
      ensures facts == old(facts) && lastRunResult == old(lastRunResult)
    {
      var id := FreshBase();
      rules := rules + [Rule(id, r.name, r.description, r.priority, r.conditions, r.event, r.enabled)];
      nextId := id + 1;
    }

    /** `updateRule`. */
    method UpdateRule(id: Id, p: RulePatch)
      modifies this
      ensures rules == UpdatedRules(old(rules), id, p)
      ensures facts == old(facts) && lastRunResult == old(lastRunResult) && nextId == old(nextId)
    {
      var index := Seqs.FindIndex(rules, RuleHasId(id));
      if index != -1 {
        rules := rules[index := ApplyRulePatch(rules[index], p)];
      }
    }

    /** `deleteRule`. */
    method DeleteRule(id: Id)
      modifies this
      ensures rules == Seqs.Filter(old(rules), RuleLacksId(id))
      ensures facts == old(facts) && lastRunResult == old(lastRunResult) && nextId == old(nextId)
    {
      rules := Seqs.Filter(rules, RuleLacksId(id));
    }

    /** `duplicateRule`: a missing id changes nothing; otherwise the copy of
        the first rule with that id is appended. */
    method DuplicateRule(id: Id)
      modifies this
      ensures Seqs.Find(old(rules), RuleHasId(id)).None? ==> rules == old(rules) && nextId == old(nextId)
      ensures Seqs.Find(old(rules), RuleHasId(id)).Some? ==>
        rules == old(rules) + [DuplicateOf(Seqs.Find(old(rules), RuleHasId(id)).value, old(FreshBase()))] &&
        nextId == DuplicateEnd(Seqs.Find(old(rules), RuleHasId(id)).value, old(FreshBase()))
      ensures facts == old(facts) && lastRunResult == old(lastRunResult)
    {
      var found := Seqs.Find(rules, RuleHasId(id));
      if found.Some? {
        var rule := found.value;
        var newId := FreshBase();
        var (conditions, after) := RegenerateIds(rule.conditions, newId + 1);
        var newRule := rule.(id := newId, name := rule.name + " (Copy)", conditions := conditions);
        rules := rules + [newRule];
        nextId := after;
      }
    }

    /** `reorderRules`: take the rule at `startIndex` out and put it back at
        `endIndex` of the shortened list; both positions are read as
        `splice` reads them, so `-1` names the last rule. */
    method ReorderRules(startIndex: int, endIndex: int)
      requires rules != [] && startIndex < |rules|
      modifies this
      ensures rules == Move(old(rules), SpliceStart(startIndex, |old(rules)|), endIndex)
      ensures facts == old(facts) && lastRunResult == old(lastRunResult) && nextId == old(nextId)
    {
      var from := SpliceStart(startIndex, |rules|);
      var removed := rules[from];
      rules := rules[..from] + rules[from + 1..];
      var at := SpliceStart(endIndex, |rules|);
      rules := rules[..at] + [removed] + rules[at..];
    }

    method SetLastRunResult(result: EngineRunResult)
      modifies this
      ensures lastRunResult == Some(result)
      ensures facts == old(facts) && rules == old(rules) && nextId == old(nextId)
    {
      lastRunResult := Some(result);
    }

    method ClearLastRunResult()
      modifies this
      ensures lastRunResult == None
      ensures facts == old(facts) && rules == old(rules) && nextId == old(nextId)
    {
      lastRunResult := None;
    }

    /** `importData`: replace facts and rules; what `exportData` then
        returns is exactly the imported data. */
    method ImportData(data: StoreData)
      modifies this
      ensures ExportData() == data
      ensures lastRunResult == old(lastRunResult) && nextId == old(nextId)
    {
      facts := data.facts;
      rules := data.rules;
    }

    /** `exportData`. */
    function ExportData(): (d: StoreData)
      reads this
      ensures d.facts == facts && d.rules == rules
    {
      StoreData(facts, rules)
    }
  }

  /** Every identifier of a duplicate is fresh: none is in use in the store
      it is added to, and no two of them are equal. */
  lemma DuplicateIdsFresh(s: EngineStore, r: Rule)
    ensures forall k :: 0 <= k < |RuleIds(DuplicateOf(r, s.FreshBase()))| ==>
      RuleIds(DuplicateOf(r, s.FreshBase()))[k] !in s.UsedIds()
    ensures forall i, j :: 0 <= i < j < |RuleIds(DuplicateOf(r, s.FreshBase()))| ==>
      RuleIds(DuplicateOf(r, s.FreshBase()))[i] != RuleIds(DuplicateOf(r, s.FreshBase()))[j]
  {
    var base := s.FreshBase();
    DuplicateOfFacts(r, base);
    IdRangeDistinct(base, |RuleIds(r)|);
  }
}
