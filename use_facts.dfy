/** The fact lookups the `useFacts` hook offers over the store's fact list. */
module UseFacts {
  import opened Wrappers
  import opened Types
  import Text
  import Seqs

  function HasName(name: string): FactDefinition -> bool { (f: FactDefinition) => f.name == name }
  function HasId(id: Id): FactDefinition -> bool { (f: FactDefinition) => f.id == id }

  /** `getFactByName`: the first fact with exactly that name, if any. */
  function GetFactByName(facts: seq<FactDefinition>, name: string): (r: Option<FactDefinition>)
    ensures r.None? <==> forall k :: 0 <= k < |facts| ==> facts[k].name != name
    ensures r.Some? ==> r.value.name == name
    ensures r.Some? ==>
      exists i :: 0 <= i < |facts| && facts[i] == r.value && (forall k :: 0 <= k < i ==> facts[k].name != name)
  {
    var r := Seqs.Find(facts, HasName(name));
    assert r.None? <==> forall k :: 0 <= k < |facts| ==> !HasName(name)(facts[k]);
    r
  }

  /** `getFactById`: the first fact with that identifier, if any. */
  function GetFactById(facts: seq<FactDefinition>, id: Id): (r: Option<FactDefinition>)
    ensures r.None? <==> forall k :: 0 <= k < |facts| ==> facts[k].id != id
    ensures r.Some? ==> r.value.id == id
    ensures r.Some? ==>
      exists i :: 0 <= i < |facts| && facts[i] == r.value && (forall k :: 0 <= k < i ==> facts[k].id != id)
  {
    var r := Seqs.Find(facts, HasId(id));
    assert r.None? <==> forall k :: 0 <= k < |facts| ==> !HasId(id)(facts[k]);
    r
  }

  /** A fact other than the excluded one (if any) whose name clashes. */
  function Clashes(name: string, excludeId: Option<Id>): FactDefinition -> bool {
    (f: FactDefinition) => Text.EqualIgnoringCase(f.name, name) && (excludeId.None? || f.id != excludeId.value)
  }

  /** `isFactNameUnique`: no fact, apart from the one with `excludeId`, has the
      name up to case. An absent `excludeId` excludes nothing, because no fact
      identifier equals `undefined`. */
  function IsFactNameUnique(facts: seq<FactDefinition>, name: string, excludeId: Option<Id>): (r: bool)
    ensures r <==> forall k :: 0 <= k < |facts| ==>
      !Text.EqualIgnoringCase(facts[k].name, name) || (excludeId.Some? && facts[k].id == excludeId.value)
  {
    var clash := Seqs.Any(facts, Clashes(name, excludeId));
    assert clash <==> exists k :: 0 <= k < |facts| && Clashes(name, excludeId)(facts[k]);
    !clash
  }

  /** Fact names distinct up to case: the invariant the uniqueness check is
      there to keep. */
  predicate NamesDistinct(facts: seq<FactDefinition>) {
    forall i, j :: 0 <= i < j < |facts| ==> !Text.EqualIgnoringCase(facts[i].name, facts[j].name)
  }

  /** Adding a fact whose name passed the check keeps the names distinct. */
  lemma UniqueNameKeepsNamesDistinct(facts: seq<FactDefinition>, f: FactDefinition)
    requires NamesDistinct(facts)
    requires IsFactNameUnique(facts, f.name, None)
    ensures NamesDistinct(facts + [f])
  {
    var s := facts + [f];
    forall i, j | 0 <= i < j < |s| ensures !Text.EqualIgnoringCase(s[i].name, s[j].name) {
      if j == |facts| {
        assert s[i] == facts[i];
      } else {
        assert s[i] == facts[i] && s[j] == facts[j];
      }
    }
  }

  /** Renaming a fact: with distinct identifiers, excluding the fact's own id
      accepts exactly the names no other fact holds up to case; in particular
      when names are distinct a fact may keep its own name. */
  lemma ExcludingOwnId(facts: seq<FactDefinition>, i: nat, name: string)
    requires i < |facts|
    requires forall a, b :: 0 <= a < b < |facts| ==> facts[a].id != facts[b].id
    ensures IsFactNameUnique(facts, name, Some(facts[i].id)) <==>
      forall k :: 0 <= k < |facts| && k != i ==> !Text.EqualIgnoringCase(facts[k].name, name)
    ensures NamesDistinct(facts) ==> IsFactNameUnique(facts, facts[i].name, Some(facts[i].id))
  {
    if NamesDistinct(facts) {
      forall k | 0 <= k < |facts| && k != i ensures !Text.EqualIgnoringCase(facts[k].name, facts[i].name) {
        if k < i {
          assert !Text.EqualIgnoringCase(facts[k].name, facts[i].name);
        } else {
          assert !Text.EqualIgnoringCase(facts[i].name, facts[k].name);
        }
      }
    }
  }
}
