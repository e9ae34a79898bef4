/** The rule list's drop handler: from the dragged and the target rule
    identifiers to the reorder call on the store. */
module RuleList {
  import opened Wrappers
  import opened Types
  import Seqs
  import Store

  /** `handleDragEnd`: nothing when there is no drop target or the rule was
      dropped on itself; otherwise the call `onReorderRules(oldIndex,
      newIndex)` with both positions found by identifier (-1 when absent). */
  function HandleDragEnd(rules: seq<Rule>, active: Id, over: Option<Id>): (call: Option<(int, int)>)
    ensures over.None? || over.value == active ==> call.None?
    ensures over.Some? && over.value != active ==> call.Some?
    ensures call.Some? ==> call.value.0 == Seqs.FindIndex(rules, Store.RuleHasId(active))
    ensures call.Some? ==> call.value.1 == Seqs.FindIndex(rules, Store.RuleHasId(over.value))
  {
    if over.Some? && active != over.value then
      Some((Seqs.FindIndex(rules, Store.RuleHasId(active)), Seqs.FindIndex(rules, Store.RuleHasId(over.value))))
    else None
  }

  /** Both identifiers come from the rendered list, which is the rule list.
      With distinct identifiers the call then names the two rules' own
      positions, meets `reorderRules`' precondition, and the reorder puts
      the dragged rule where the target was, as a permutation of the list. */
  lemma DropMovesRuleToTarget(rules: seq<Rule>, a: nat, b: nat)
    requires a < |rules| && b < |rules|
    requires forall i, j :: 0 <= i < j < |rules| ==> rules[i].id != rules[j].id
    requires rules[a].id != rules[b].id
    ensures HandleDragEnd(rules, rules[a].id, Some(rules[b].id)) == Some((a as int, b as int))
    ensures Store.Move(rules, a, b)[b] == rules[a]
    ensures |Store.Move(rules, a, b)| == |rules|
    ensures multiset(Store.Move(rules, a, b)) == multiset(rules)
  {
    assert Store.RuleHasId(rules[a].id)(rules[a]);
    assert Store.RuleHasId(rules[b].id)(rules[b]);
    Store.MoveFacts(rules, a, b);
  }

  /** Dropping a rule on itself, or outside the list, calls nothing. */
  lemma DropOnSelfIgnored(rules: seq<Rule>, active: Id)
    ensures HandleDragEnd(rules, active, Some(active)).None?
    ensures HandleDragEnd(rules, active, None).None?
  {
  }
}
