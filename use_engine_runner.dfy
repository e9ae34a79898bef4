/** The `useEngineRunner` hook: the default fact values offered before a run,
    and the run itself, which records a successful report in the store and
    turns a failure into an error message. The hook's own `getDefaultForType`
    is the same table as the engine's and is modelled once, as
    `Engine.DefaultForType`. */
module EngineRunner {
  import opened Wrappers
  import opened Types
  import Engine
  import Store

  /** `fact.defaultValue ?? getDefaultForType(fact.type)`. */
  function DefaultFactValue(f: FactDefinition): Json {
    Engine.Coalesce(f.defaultValue, Engine.DefaultForType(f.factType))
  }

  /** `getDefaultFactValues`: one entry per fact name, a later fact of the
      same name overwriting an earlier one. The values are exactly those the
      engine itself uses when no value is supplied. */
  method GetDefaultFactValues(facts: seq<FactDefinition>) returns (values: map<string, Json>)
    ensures values == Engine.FactEnvironment(map[], facts)
    ensures forall k :: k in values <==> exists i :: 0 <= i < |facts| && facts[i].name == k
  {
    values := map[];
    for i := 0 to |facts|
      invariant values == Engine.FactEnvironment(map[], facts[..i])
    {
      assert facts[..i + 1][..i] == facts[..i];
      assert Engine.EffectiveValue(map[], facts[i]) == DefaultFactValue(facts[i]);
      values := values[facts[i].name := DefaultFactValue(facts[i])];
    }
    assert facts[..|facts|] == facts;
    Engine.FactEnvironmentKeys(map[], facts);
  }

  /** The last position holding a fact of the given name. */
  lemma {:induction false} LastWithName(facts: seq<FactDefinition>, k: string) returns (i: nat)
    requires exists j :: 0 <= j < |facts| && facts[j].name == k
    ensures i < |facts| && facts[i].name == k
    ensures forall j :: i < j < |facts| ==> facts[j].name != k
    decreases |facts|
  {
    var n := |facts| - 1;
    if facts[n].name == k {
      i := n;
    } else {
      var j :| 0 <= j < |facts| && facts[j].name == k;
      assert facts[..n][j] == facts[j];
      i := LastWithName(facts[..n], k);
      assert facts[..n][i] == facts[i];
    }
  }

  /** Running with the offered defaults is the same as running with nothing
      supplied: the environment the engine builds does not change. */
  lemma DefaultsChangeNothing(facts: seq<FactDefinition>)
    ensures Engine.FactEnvironment(Engine.FactEnvironment(map[], facts), facts) == Engine.FactEnvironment(map[], facts)
  {
    var d := Engine.FactEnvironment(map[], facts);
    var e := Engine.FactEnvironment(d, facts);
    Engine.FactEnvironmentKeys(map[], facts);
    Engine.FactEnvironmentKeys(d, facts);
    forall k | k in d ensures e[k] == d[k] {
      var i := LastWithName(facts, k);
      Engine.FactEnvironmentLookup(map[], facts, i);
      Engine.FactEnvironmentLookup(d, facts, i);
      Engine.EffectiveValueFallback(map[], facts[i]);
    }
  }

  /** The message the hook shows for a failed run. */
  function ErrorMessage(err: Engine.Thrown): string {
    match err
    case ErrorObject(message) => message
    case NonError => "Failed to run engine"
  }

  /** `run`: a successful report is recorded in the store and returned, with
      the error cleared; a failure returns nothing, leaves the recorded
      report as it was and sets the error message. */
  method Run(store: Store.EngineStore, engine: Engine.ForeignEngine, factValues: map<string, Json>)
    returns (result: Option<EngineRunResult>, error: Option<string>)
    modifies store
    ensures Engine.RunSpec(engine, old(store.rules), old(store.facts), factValues).Success? ==>
      var report := Engine.RunSpec(engine, old(store.rules), old(store.facts), factValues).value;
      result == Some(report) && error == None && store.lastRunResult == Some(report)
    ensures Engine.RunSpec(engine, old(store.rules), old(store.facts), factValues).Failure? ==>
      var err := Engine.RunSpec(engine, old(store.rules), old(store.facts), factValues).error;
      result == None && error == Some(ErrorMessage(err)) && store.lastRunResult == old(store.lastRunResult)
    ensures store.facts == old(store.facts) && store.rules == old(store.rules) && store.nextId == old(store.nextId)
  {
    error := None;
    var outcome := Engine.RunEngine(engine, store.rules, store.facts, factValues);
    if outcome.Success? {
      store.SetLastRunResult(outcome.value);
      result := Some(outcome.value);
    } else {
      error := Some(ErrorMessage(outcome.error));
      result := None;
    }
  }
}
