/** The rule queries and the enable toggle the `useRules` hook offers. */
module UseRules {
  import opened Wrappers
  import opened Types
  import Seqs
  import Engine
  import Store

  /** `getRuleById`: the first rule with that identifier, if any. */
  function GetRuleById(rules: seq<Rule>, id: Id): (r: Option<Rule>)
    ensures r.None? <==> forall k :: 0 <= k < |rules| ==> rules[k].id != id
    ensures r.Some? ==> r.value.id == id
    ensures r.Some? ==>
      exists i :: 0 <= i < |rules| && rules[i] == r.value && (forall k :: 0 <= k < i ==> rules[k].id != id)
  {
    var r := Seqs.Find(rules, Store.RuleHasId(id));
    assert r.None? <==> forall k :: 0 <= k < |rules| ==> !Store.RuleHasId(id)(rules[k]);
    r
  }

  /** `getEnabledRules`: exactly the enabled rules, each as often as in the
      rule set; it is the same list the engine run uses. */
  function GetEnabledRules(rules: seq<Rule>): (r: seq<Rule>)
    ensures forall k :: 0 <= k < |r| ==> r[k].enabled && r[k] in rules
    ensures forall k :: 0 <= k < |rules| && rules[k].enabled ==> rules[k] in r
    ensures multiset(r) <= multiset(rules)
    ensures r == Engine.EnabledRules(rules)
  {
    var r := Seqs.Filter(rules, Engine.Enabled());
    Seqs.FilterMembers(rules, Engine.Enabled());
    Seqs.FilterSubMultiset(rules, Engine.Enabled());
    r
  }

  // ----- `getRulesByPriority`: a stable sort, highest priority first -----

  /** Place `x` before the first rule of `sorted` whose priority is not higher;
      rules of equal priority that were already there stay after `x`. */
  function Insert(x: Rule, sorted: seq<Rule>): seq<Rule>
    decreases sorted
  {
    if sorted == [] || sorted[0].priority <= x.priority then [x] + sorted
    else [sorted[0]] + Insert(x, sorted[1..])
  }

  /** `[...rules].sort((a, b) => b.priority - a.priority)`; the array sort is
      stable, which this insertion from the back reproduces. */
  function GetRulesByPriority(rules: seq<Rule>): seq<Rule>
    decreases rules
  {
    if rules == [] then [] else Insert(rules[0], GetRulesByPriority(rules[1..]))
  }

  predicate ByPriority(s: seq<Rule>) {
    forall i, j :: 0 <= i < j < |s| ==> s[i].priority >= s[j].priority
  }

  function HasPriority(p: int): Rule -> bool { (r: Rule) => r.priority == p }

  lemma {:induction false} InsertBounded(x: Rule, sorted: seq<Rule>, b: int)
    requires x.priority <= b
    requires forall k :: 0 <= k < |sorted| ==> sorted[k].priority <= b
    ensures forall k :: 0 <= k < |Insert(x, sorted)| ==> Insert(x, sorted)[k].priority <= b
    decreases sorted
  {
    if sorted != [] && sorted[0].priority > x.priority {
      InsertBounded(x, sorted[1..], b);
    }
  }

  lemma {:induction false} InsertKeepsOrder(x: Rule, sorted: seq<Rule>)
    requires ByPriority(sorted)
    ensures ByPriority(Insert(x, sorted))
    decreases sorted
  {
    if sorted != [] && sorted[0].priority > x.priority {
      var tail := sorted[1..];
      InsertKeepsOrder(x, tail);
      InsertBounded(x, tail, sorted[0].priority);
      var r := Insert(x, sorted);
      var rest := Insert(x, tail);
      assert r == [sorted[0]] + rest;
      forall i, j | 0 <= i < j < |r| ensures r[i].priority >= r[j].priority {
        assert r[j] == rest[j - 1];
        if i > 0 {
          assert r[i] == rest[i - 1];
        }
      }
    }
  }

  lemma {:induction false} InsertPermutes(x: Rule, sorted: seq<Rule>)
    ensures multiset(Insert(x, sorted)) == multiset(sorted) + multiset{x}
    decreases sorted
  {
    if sorted != [] && sorted[0].priority > x.priority {
      InsertPermutes(x, sorted[1..]);
      assert sorted == [sorted[0]] + sorted[1..];
    }
  }

  lemma {:induction false} InsertStable(x: Rule, sorted: seq<Rule>, p: int)
    ensures Seqs.Filter(Insert(x, sorted), HasPriority(p)) ==
      (if x.priority == p then [x] else []) + Seqs.Filter(sorted, HasPriority(p))
    decreases sorted
  {
    var P := HasPriority(p);
    if sorted == [] || sorted[0].priority <= x.priority {
      Seqs.FilterCons(x, sorted, P);
    } else {
      var tail := sorted[1..];
      InsertStable(x, tail, p);
      Seqs.FilterCons(sorted[0], Insert(x, tail), P);
      Seqs.FilterCons(sorted[0], tail, P);
      assert [sorted[0]] + tail == sorted;
    }
  }

  /** The result runs from the highest priority to the lowest and is a
      permutation of the rule set. */
  lemma {:induction false} RulesByPrioritySorted(rules: seq<Rule>)
    ensures ByPriority(GetRulesByPriority(rules))
    ensures multiset(GetRulesByPriority(rules)) == multiset(rules)
    decreases rules
  {
    if rules != [] {
      RulesByPrioritySorted(rules[1..]);
      InsertKeepsOrder(rules[0], GetRulesByPriority(rules[1..]));
      InsertPermutes(rules[0], GetRulesByPriority(rules[1..]));
      assert rules == [rules[0]] + rules[1..];
    }
  }

  /** Stability: the rules of any one priority keep their rule-set order. */
  lemma {:induction false} RulesByPriorityStable(rules: seq<Rule>, p: int)
    ensures Seqs.Filter(GetRulesByPriority(rules), HasPriority(p)) == Seqs.Filter(rules, HasPriority(p))
    decreases rules
  {
    if rules != [] {
      RulesByPriorityStable(rules[1..], p);
      InsertStable(rules[0], GetRulesByPriority(rules[1..]), p);
      Seqs.FilterCons(rules[0], rules[1..], HasPriority(p));
      assert [rules[0]] + rules[1..] == rules;
    }
  }

  // ----- `toggleRuleEnabled` -----

  /** The update `toggleRuleEnabled` sends: only `enabled`, negated. */
  function EnabledPatch(b: bool): Store.RulePatch {
    Store.NoRuleChanges.(enabled := Store.Put(b))
  }

  /** The rule list after toggling: the first rule with the identifier flips
      its flag; an unknown identifier changes nothing. */
  function ToggledRules(rules: seq<Rule>, id: Id): seq<Rule> {
    var i := Seqs.FindIndex(rules, Store.RuleHasId(id));
    if i == -1 then rules else rules[i := rules[i].(enabled := !rules[i].enabled)]
  }

  /** The toggle flips `enabled` of the first rule with the identifier and
      changes nothing for an unknown one; only that flag of that rule
      changes, and toggling twice restores the rule list. */
  lemma ToggleTwice(rules: seq<Rule>, id: Id)
    ensures forall i :: 0 <= i < |rules| && rules[i].id == id && (forall k :: 0 <= k < i ==> rules[k].id != id) ==>
      ToggledRules(rules, id) == rules[i := rules[i].(enabled := !rules[i].enabled)]
    ensures (forall k :: 0 <= k < |rules| ==> rules[k].id != id) ==> ToggledRules(rules, id) == rules
    ensures ToggledRules(ToggledRules(rules, id), id) == rules
    ensures |ToggledRules(rules, id)| == |rules|
    ensures forall k :: 0 <= k < |rules| ==>
      ToggledRules(rules, id)[k] == rules[k] ||
      (rules[k].id == id && ToggledRules(rules, id)[k] == rules[k].(enabled := !rules[k].enabled))
  {
    var i := Seqs.FindIndex(rules, Store.RuleHasId(id));
    var once := ToggledRules(rules, id);
    forall m | 0 <= m < |rules| && rules[m].id == id && (forall k :: 0 <= k < m ==> rules[k].id != id)
      ensures i == m
    {
      assert Store.RuleHasId(id)(rules[m]);
    }
    if i != -1 {
      var j := Seqs.FindIndex(once, Store.RuleHasId(id));
      assert Store.RuleHasId(id)(once[i]);
      assert j == i;
    }
  }

  method ToggleRuleEnabled(store: Store.EngineStore, id: Id)
    modifies store
    ensures store.rules == ToggledRules(old(store.rules), id)
    ensures store.facts == old(store.facts) && store.lastRunResult == old(store.lastRunResult)
    ensures store.nextId == old(store.nextId)
  {
    var rule := GetRuleById(store.rules, id);
    ghost var i := Seqs.FindIndex(store.rules, Store.RuleHasId(id));
    if rule.Some? {
      assert i != -1;
      ghost var m :| 0 <= m < |store.rules| && store.rules[m] == rule.value &&
        forall k :: 0 <= k < m ==> store.rules[k].id != id;
      assert m == i by {
        assert Store.RuleHasId(id)(store.rules[m]);
      }
      store.UpdateRule(id, EnabledPatch(!rule.value.enabled));
    }
  }
}
