/** The structural edits the condition-group editor hands to its `onChange`:
    append a leaf, append a group, replace a child, remove a child and change
    the combinator, plus the depth gate on adding groups. Each edit builds a
    new group; `uuidv4` enters as the `freshId` parameter. */
module ConditionEditor {
  import opened Wrappers
  import opened Types

  /** The leaf `addCondition` appends. */
  function BlankCondition(freshId: Id): Condition {
    Condition(freshId, "", Equal, JStr(""), None, None)
  }

  /** `addCondition`: append one blank leaf; identifier, combinator and the
      existing children are kept. */
  function AddCondition(g: ConditionGroup, freshId: Id): (r: ConditionGroup)
    ensures r.id == g.id && r.groupType == g.groupType
    ensures |r.conditions| == |g.conditions| + 1
    ensures r.conditions[..|g.conditions|] == g.conditions
    ensures r.conditions[|g.conditions|] == Leaf(BlankCondition(freshId))
  {
    g.(conditions := g.conditions + [Leaf(BlankCondition(freshId))])
  }

  /** `addGroup`: append one empty `all` group. */
  function AddGroup(g: ConditionGroup, freshId: Id): (r: ConditionGroup)
    ensures r.id == g.id && r.groupType == g.groupType
    ensures |r.conditions| == |g.conditions| + 1
    ensures r.conditions[..|g.conditions|] == g.conditions
    ensures r.conditions[|g.conditions|] == Nested(ConditionGroup(freshId, All, []))
  {
    g.(conditions := g.conditions + [Nested(ConditionGroup(freshId, All, []))])
  }

  /** `updateCondition`: replace the child at `index`. An index past the end
      would write a hole into the JavaScript array, so it is excluded. */
  function UpdateCondition(g: ConditionGroup, index: nat, updated: Node): (r: ConditionGroup)
    requires index < |g.conditions|
    ensures r.id == g.id && r.groupType == g.groupType
    ensures |r.conditions| == |g.conditions|
    ensures r.conditions[index] == updated
    ensures forall k :: 0 <= k < |g.conditions| && k != index ==> r.conditions[k] == g.conditions[k]
  {
    g.(conditions := g.conditions[index := updated])
  }

  /** `filter((_, i) => i !== index)` over a list whose first element has
      position `offset`. */
  function KeepOtherPositions(cs: seq<Node>, index: int, offset: nat): seq<Node>
    decreases cs
  {
    if cs == [] then []
    else (if offset == index then [] else [cs[0]]) + KeepOtherPositions(cs[1..], index, offset + 1)
  }

  /** `removeCondition`. */
  function RemoveCondition(g: ConditionGroup, index: int): ConditionGroup {
    g.(conditions := KeepOtherPositions(g.conditions, index, 0))
  }

  lemma {:induction false} KeepOtherPositionsSlices(cs: seq<Node>, index: int, offset: nat)
    ensures offset <= index < offset + |cs| ==>
      KeepOtherPositions(cs, index, offset) == cs[..index - offset] + cs[index - offset + 1..]
    ensures !(offset <= index < offset + |cs|) ==> KeepOtherPositions(cs, index, offset) == cs
    decreases cs
  {
    if cs != [] {
      var rest := KeepOtherPositions(cs[1..], index, offset + 1);
      KeepOtherPositionsSlices(cs[1..], index, offset + 1);
      if offset == index {
        assert rest == cs[1..];
        assert cs[..0] == [];
      } else if offset < index < offset + |cs| {
        var j := index - offset;
        assert rest == cs[1..][..j - 1] + cs[1..][j..];
        assert cs[1..][..j - 1] == cs[1..j];
        assert cs[1..][j..] == cs[j + 1..];
        assert cs[..j] == [cs[0]] + cs[1..j];
      } else {
        assert rest == cs[1..];
        assert [cs[0]] + cs[1..] == cs;
      }
    }
  }

  /** Removing at an in-range index drops exactly that child, later ones
      moving up one place; an out-of-range index changes nothing. */
  lemma RemoveConditionEffect(g: ConditionGroup, index: int)
    ensures RemoveCondition(g, index).id == g.id && RemoveCondition(g, index).groupType == g.groupType
    ensures 0 <= index < |g.conditions| ==>
      RemoveCondition(g, index).conditions == g.conditions[..index] + g.conditions[index + 1..]
    ensures !(0 <= index < |g.conditions|) ==> RemoveCondition(g, index) == g
  {
    KeepOtherPositionsSlices(g.conditions, index, 0);
  }

  /** `changeGroupType`: only the combinator changes. */
  function ChangeGroupType(g: ConditionGroup, t: GroupType): (r: ConditionGroup)
    ensures r.id == g.id && r.conditions == g.conditions && r.groupType == t
  {
    g.(groupType := t)
  }

  /** Removing the child just appended restores the group, for either kind
      of append; changing the combinator back restores it as well. */
  lemma EditsUndo(g: ConditionGroup, freshId: Id, t: GroupType)
    ensures RemoveCondition(AddCondition(g, freshId), |g.conditions|) == g
    ensures RemoveCondition(AddGroup(g, freshId), |g.conditions|) == g
    ensures ChangeGroupType(ChangeGroupType(g, t), g.groupType) == g
  {
    RemoveConditionEffect(AddCondition(g, freshId), |g.conditions|);
    RemoveConditionEffect(AddGroup(g, freshId), |g.conditions|);
    assert AddCondition(g, freshId).conditions[..|g.conditions|] == g.conditions;
    assert AddGroup(g, freshId).conditions[..|g.conditions|] == g.conditions;
  }

  lemma {:induction false} ChildLeavesSingleton(n: Node)
    ensures ChildLeaves([n]) == NodeLeaves(n)
  {
    assert [n][1..] == [];
  }

  /** Effect on the leaves, in order: a new leaf comes last and a new group
      adds none. */
  lemma AddsOnLeaves(g: ConditionGroup, freshId: Id)
    ensures GroupLeaves(AddCondition(g, freshId)) == GroupLeaves(g) + [BlankCondition(freshId)]
    ensures GroupLeaves(AddGroup(g, freshId)) == GroupLeaves(g)
  {
    var cs := g.conditions;
    ChildLeavesAppend(cs, [Leaf(BlankCondition(freshId))]);
    ChildLeavesSingleton(Leaf(BlankCondition(freshId)));
    ChildLeavesAppend(cs, [Nested(ConditionGroup(freshId, All, []))]);
    ChildLeavesSingleton(Nested(ConditionGroup(freshId, All, [])));
  }

  /** Removing a child removes exactly its leaves, in place. */
  lemma RemoveOnLeaves(g: ConditionGroup, index: int)
    requires 0 <= index < |g.conditions|
    ensures GroupLeaves(RemoveCondition(g, index)) ==
      ChildLeaves(g.conditions[..index]) + ChildLeaves(g.conditions[index + 1..])
    ensures GroupLeaves(g) ==
      ChildLeaves(g.conditions[..index]) + NodeLeaves(g.conditions[index]) + ChildLeaves(g.conditions[index + 1..])
  {
    var cs := g.conditions;
    RemoveConditionEffect(g, index);
    ChildLeavesAppend(cs[..index], cs[index + 1..]);
    assert cs == cs[..index] + ([cs[index]] + cs[index + 1..]);
    ChildLeavesAppend(cs[..index], [cs[index]] + cs[index + 1..]);
    ChildLeavesAppend([cs[index]], cs[index + 1..]);
    ChildLeavesSingleton(cs[index]);
  }

  // ----- the depth gate -----

  /** The "add group" control is shown only above depth 3. */
  predicate CanAddGroup(depth: int) {
    depth < 3
  }

  /** Every group in the tree sits at depth 3 or less, counting the node
      itself at `depth`. */
  predicate NodeWithin(n: Node, depth: int)
    decreases n
  {
    match n
    case Leaf(_) => true
    case Nested(h) => depth <= 3 && ChildrenWithin(h.conditions, depth + 1)
  }

  predicate ChildrenWithin(cs: seq<Node>, depth: int)
    decreases cs
  {
    cs == [] || (NodeWithin(cs[0], depth) && ChildrenWithin(cs[1..], depth))
  }

  /** The group shown at `depth` and everything below it stay within depth 3. */
  predicate GroupWithin(g: ConditionGroup, depth: int) {
    depth <= 3 && ChildrenWithin(g.conditions, depth + 1)
  }

  lemma {:induction false} ChildrenWithinEach(cs: seq<Node>, depth: int)
    ensures ChildrenWithin(cs, depth) <==> forall k :: 0 <= k < |cs| ==> NodeWithin(cs[k], depth)
    decreases cs
  {
    if cs != [] {
      ChildrenWithinEach(cs[1..], depth);
      if forall k :: 0 <= k < |cs| ==> NodeWithin(cs[k], depth) {
        forall k | 0 <= k < |cs[1..]| ensures NodeWithin(cs[1..][k], depth) {
          assert cs[1..][k] == cs[k + 1];
        }
      }
      if ChildrenWithin(cs, depth) {
        forall k | 1 <= k < |cs| ensures NodeWithin(cs[k], depth) {
          assert cs[k] == cs[1..][k - 1];
        }
      }
    }
  }

  /** The editor keeps every tree within depth 3: appending a leaf always
      does, appending a group does where the control is offered, a child
      replaced by its own editor one level down does too, and so do removing
      a child and changing the combinator. */
  lemma EditsStayWithinDepth(g: ConditionGroup, depth: int, freshId: Id, index: nat, updated: Node)
    requires GroupWithin(g, depth)
    ensures GroupWithin(AddCondition(g, freshId), depth)
    ensures CanAddGroup(depth) ==> GroupWithin(AddGroup(g, freshId), depth)
    ensures index < |g.conditions| && NodeWithin(updated, depth + 1) ==>
      GroupWithin(UpdateCondition(g, index, updated), depth)
    ensures GroupWithin(RemoveCondition(g, index), depth)
    ensures forall t :: GroupWithin(ChangeGroupType(g, t), depth)
  {
    var d := depth + 1;
    ChildrenWithinEach(g.conditions, d);
    ChildrenWithinEach(AddCondition(g, freshId).conditions, d);
    var empty := ConditionGroup(freshId, All, []);
    assert NodeWithin(Nested(empty), d) <==> d <= 3 && ChildrenWithin(empty.conditions, d + 1);
    ChildrenWithinEach(AddGroup(g, freshId).conditions, d);
    if index < |g.conditions| {
      ChildrenWithinEach(UpdateCondition(g, index, updated).conditions, d);
    }
    RemoveConditionEffect(g, index);
    ChildrenWithinEach(RemoveCondition(g, index).conditions, d);
  }
}
