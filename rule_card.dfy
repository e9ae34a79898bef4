/** The rule card: the edits it passes to `onChange` as whole rules, which the
    rule list forwards to the store as `updateRule(rule.id, updated)`, and the
    leaf count shown in its header. */
module RuleCard {
  import opened Wrappers
  import opened Types
  import Seqs
  import Store
  import UseRules

  /** Every field of `updated` as an update, the way a whole rule is spread
      over the stored one. */
  function WholeRule(updated: Rule): Store.RulePatch {
    Store.RulePatch(Store.Put(updated.id), Store.Put(updated.name), Store.Put(updated.description),
                    Store.Put(updated.priority), Store.Put(updated.conditions), Store.Put(updated.event),
                    Store.Put(updated.enabled))
  }

  /** Spreading a whole rule replaces the stored rule by it. */
  lemma WholeRuleReplaces(current: Rule, updated: Rule)
    ensures Store.ApplyRulePatch(current, WholeRule(updated)) == updated
  {
  }

  /** `toggleEnabled`. */
  function ToggleEnabled(r: Rule): Rule {
    r.(enabled := !r.enabled)
  }

  /** The card's switch and the hook's `toggleRuleEnabled` have the same
      effect on the store's rule list, and toggling twice restores the rule. */
  lemma ToggleEnabledAgrees(rules: seq<Rule>, i: nat)
    requires i < |rules|
    requires forall k :: 0 <= k < i ==> rules[k].id != rules[i].id
    ensures Store.UpdatedRules(rules, rules[i].id, WholeRule(ToggleEnabled(rules[i]))) ==
      UseRules.ToggledRules(rules, rules[i].id)
    ensures ToggleEnabled(ToggleEnabled(rules[i])) == rules[i]
    ensures ToggleEnabled(rules[i]).enabled != rules[i].enabled
  {
    var j := Seqs.FindIndex(rules, Store.RuleHasId(rules[i].id));
    assert Store.RuleHasId(rules[i].id)(rules[i]);
    assert j == i;
  }

  /** The name field: the text as typed, untrimmed. */
  function EditName(r: Rule, text: string): Rule {
    r.(name := text)
  }

  /** `parseInt(text) || 1`, given what `parseInt` made of the text (`None`
      for `NaN`): a zero or unparsable entry becomes 1. */
  function PriorityFromInput(parsed: Option<int>): (p: int)
    ensures p != 0
    ensures parsed.Some? && parsed.value != 0 ==> p == parsed.value
    ensures parsed.None? || parsed.value == 0 ==> p == 1
  {
    if parsed.Some? && parsed.value != 0 then parsed.value else 1
  }

  function EditPriority(r: Rule, parsed: Option<int>): Rule {
    r.(priority := PriorityFromInput(parsed))
  }

  /** The description box shows `rule.description || ''`. */
  function ShownDescription(r: Rule): string {
    if r.description.Some? then r.description.value else ""
  }

  /** `e.target.value || undefined`. */
  function EditDescription(r: Rule, text: string): Rule {
    r.(description := if text == "" then None else Some(text))
  }

  /** Round trips through the inputs: re-entering the shown description or
      the shown priority leaves the rule as it was, except that a stored
      empty description becomes absent and a stored zero priority becomes 1;
      a priority once entered is never 0 and re-entering it keeps it. */
  lemma EditsRoundTrip(r: Rule, parsed: Option<int>)
    ensures r.description != Some("") ==> EditDescription(r, ShownDescription(r)) == r
    ensures r.description == Some("") ==> EditDescription(r, ShownDescription(r)) == r.(description := None)
    ensures r.priority != 0 ==> EditPriority(r, Some(r.priority)) == r
    ensures r.priority == 0 ==> EditPriority(r, Some(r.priority)) == r.(priority := 1)
    ensures EditPriority(r, parsed).priority != 0
    ensures EditPriority(EditPriority(r, parsed), Some(EditPriority(r, parsed).priority)) == EditPriority(r, parsed)
    ensures EditName(r, r.name) == r
  {
  }

  /** `countConditions`: the number of leaves below a group, counted by a
      loop over the children that recurses into nested groups. */
  method CountConditions(g: ConditionGroup) returns (count: nat)
    ensures count == |GroupLeaves(g)|
    decreases g
  {
    count := 0;
    var cs := g.conditions;
    for i := 0 to |cs|
      invariant count == |ChildLeaves(cs[..i])|
    {
      assert cs[..i + 1] == cs[..i] + [cs[i]];
      ChildLeavesAppend(cs[..i], [cs[i]]);
      assert [cs[i]][1..] == [];
      match cs[i]
      case Nested(h) =>
        var inner := CountConditions(h);
        count := count + inner;
      case Leaf(_) =>
        count := count + 1;
    }
    assert cs[..|cs|] == cs;
  }
}
