/** The facts panel: the set of fact names the rules refer to, and the
    delete handler that refuses to remove a fact still referred to. */
module FactsPanel {
  import opened Types
  import Seqs
  import Engine
  import Store

  /** The fact names a list of leaves refers to. */
  function FactSet(leaves: seq<Condition>): set<string> {
    set k | 0 <= k < |leaves| :: leaves[k].fact
  }

  lemma FactSetAppend(a: seq<Condition>, b: seq<Condition>)
    ensures FactSet(a + b) == FactSet(a) + FactSet(b)
  {
    var ab := a + b;
    forall n | n in FactSet(ab) ensures n in FactSet(a) + FactSet(b) {
      var k :| 0 <= k < |ab| && ab[k].fact == n;
      if k >= |a| {
        assert b[k - |a|].fact == n;
      }
    }
    forall n | n in FactSet(a) + FactSet(b) ensures n in FactSet(ab) {
      if n in FactSet(a) {
        var k :| 0 <= k < |a| && a[k].fact == n;
        assert ab[k].fact == n;
      } else {
        var k :| 0 <= k < |b| && b[k].fact == n;
        assert ab[|a| + k].fact == n;
      }
    }
  }

  /** Every fact name any rule, enabled or not, refers to. */
  function UsedFactNames(rules: seq<Rule>): set<string>
    decreases |rules|
  {
    if rules == [] then {}
    else UsedFactNames(rules[..|rules| - 1]) + FactSet(GroupLeaves(rules[|rules| - 1].conditions))
  }

  /** A name is used exactly when some leaf of some rule refers to it. */
  lemma {:induction false} UsedFactNamesIff(rules: seq<Rule>, n: string)
    ensures n in UsedFactNames(rules) <==>
      exists r, k :: 0 <= r < |rules| && 0 <= k < |GroupLeaves(rules[r].conditions)| &&
        GroupLeaves(rules[r].conditions)[k].fact == n
    decreases |rules|
  {
    if rules != [] {
      var last := |rules| - 1;
      var init := rules[..last];
      UsedFactNamesIff(init, n);
      if n in UsedFactNames(rules) {
        if n in UsedFactNames(init) {
          var r, k :| 0 <= r < |init| && 0 <= k < |GroupLeaves(init[r].conditions)| &&
            GroupLeaves(init[r].conditions)[k].fact == n;
          assert rules[r] == init[r];
        } else {
          var k :| 0 <= k < |GroupLeaves(rules[last].conditions)| && GroupLeaves(rules[last].conditions)[k].fact == n;
        }
      }
      if (exists r, k :: 0 <= r < |rules| && 0 <= k < |GroupLeaves(rules[r].conditions)| &&
            GroupLeaves(rules[r].conditions)[k].fact == n) {
        var r, k :| 0 <= r < |rules| && 0 <= k < |GroupLeaves(rules[r].conditions)| &&
          GroupLeaves(rules[r].conditions)[k].fact == n;
        if r < last {
          assert init[r] == rules[r];
        }
      }
    }
  }

  /** `checkConditions`: walk one node, adding every leaf's fact name. */
  method CheckConditions(n: Node, used: set<string>) returns (out: set<string>)
    ensures out == used + FactSet(NodeLeaves(n))
    decreases n
  {
    match n
    case Leaf(c) =>
      assert FactSet([c]) == {c.fact} by {
        assert [c][0].fact == c.fact;
      }
      out := used + {c.fact};
    case Nested(g) =>
      out := used;
      var cs := g.conditions;
      for i := 0 to |cs|
        invariant out == used + FactSet(ChildLeaves(cs[..i]))
      {
        Engine.ChildLeavesPrefix(cs, i);
        FactSetAppend(ChildLeaves(cs[..i]), NodeLeaves(cs[i]));
        out := CheckConditions(cs[i], out);
      }
      assert cs[..|cs|] == cs;
  }

  /** `getFactsUsedInRules`. */
  method GetFactsUsedInRules(rules: seq<Rule>) returns (used: set<string>)
    ensures used == UsedFactNames(rules)
  {
    used := {};
    for i := 0 to |rules|
      invariant used == UsedFactNames(rules[..i])
    {
      assert rules[..i + 1][..i] == rules[..i];
      used := CheckConditions(Nested(rules[i].conditions), used);
    }
    assert rules[..|rules|] == rules;
  }

  /** `handleDeleteFact`: refuse when a rule refers to the fact's name,
      otherwise delete the fact by id. */
  method HandleDeleteFact(store: Store.EngineStore, fact: FactDefinition) returns (refused: bool)
    modifies store
    ensures refused <==> fact.name in UsedFactNames(old(store.rules))
    ensures refused ==> store.facts == old(store.facts)
    ensures !refused ==> store.facts == Seqs.Filter(old(store.facts), Store.FactLacksId(fact.id))
    ensures store.rules == old(store.rules) && store.lastRunResult == old(store.lastRunResult)
    ensures store.nextId == old(store.nextId)
  {
    var used := GetFactsUsedInRules(store.rules);
    if fact.name in used {
      refused := true;
    } else {
      store.DeleteFact(fact.id);
      refused := false;
    }
  }

  /** Every fact name the rules refer to is declared. */
  predicate ReferencesDeclared(facts: seq<FactDefinition>, rules: seq<Rule>) {
    UsedFactNames(rules) <= Engine.NameSet(facts)
  }

  /** The invariant is the same as every rule validating cleanly. */
  lemma ReferencesDeclaredIffValid(facts: seq<FactDefinition>, rules: seq<Rule>)
    ensures ReferencesDeclared(facts, rules) <==>
      forall r :: 0 <= r < |rules| ==> Engine.UnknownFactErrors(GroupLeaves(rules[r].conditions), Engine.NameSet(facts)) == []
  {
    forall r | 0 <= r < |rules| {
      Engine.UnknownFactErrorsEmptyIff(GroupLeaves(rules[r].conditions), Engine.NameSet(facts));
    }
    if ReferencesDeclared(facts, rules) {
      forall r, k | 0 <= r < |rules| && 0 <= k < |GroupLeaves(rules[r].conditions)|
        ensures GroupLeaves(rules[r].conditions)[k].fact in Engine.NameSet(facts)
      {
        UsedFactNamesIff(rules, GroupLeaves(rules[r].conditions)[k].fact);
      }
    } else {
      var n :| n in UsedFactNames(rules) && n !in Engine.NameSet(facts);
      UsedFactNamesIff(rules, n);
    }
  }

  /** The guard keeps the invariant: with distinct identifiers, deleting a
      listed fact whose name no rule uses leaves every referred-to name
      declared. */
  lemma DeleteGuardKeepsReferences(facts: seq<FactDefinition>, rules: seq<Rule>, i: nat)
    requires i < |facts|
    requires forall a, b :: 0 <= a < b < |facts| ==> facts[a].id != facts[b].id
    requires ReferencesDeclared(facts, rules)
    requires facts[i].name !in UsedFactNames(rules)
    ensures ReferencesDeclared(Seqs.Filter(facts, Store.FactLacksId(facts[i].id)), rules)
  {
    forall n | n in UsedFactNames(rules)
      ensures n in Engine.NameSet(Seqs.Filter(facts, Store.FactLacksId(facts[i].id)))
    {
      var a :| 0 <= a < |facts| && facts[a].name == n;
      OtherFactKept(facts, i, a);
    }
  }

  /** Deleting one fact by identifier keeps the name of every fact with
      another identifier. */
  lemma OtherFactKept(facts: seq<FactDefinition>, i: nat, a: nat)
    requires i < |facts| && a < |facts| && facts[a].id != facts[i].id
    ensures facts[a].name in Engine.NameSet(Seqs.Filter(facts, Store.FactLacksId(facts[i].id)))
  {
    var after := Seqs.Filter(facts, Store.FactLacksId(facts[i].id));
    Seqs.FilterMembers(facts, Store.FactLacksId(facts[i].id));
    assert Store.FactLacksId(facts[i].id)(facts[a]);
    var k :| 0 <= k < |after| && after[k] == facts[a];
  }
}
