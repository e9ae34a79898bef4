# json-rules-ui-react, modelled in Dafny

json-rules-ui-react is a browser editor for business rules that run on the
`json-rules-engine` library. A user declares *facts*: a name, one of five
types, and an optional default value. The user then writes *rules*. Each rule
has a priority, an enabled flag, an event, and a tree of *conditions*. A leaf
of that tree compares one fact with a value through one of ten operators. An
inner node combines its children with `all`, `any` or `not`. The editor can
run the enabled rules against a set of fact values and shows which rules
fired.

This project models everything around the evaluator itself:

- **The data model**: `Types`.
  - Fact types, operators and JSON values.
  - The condition tree: a `ConditionGroup` whose children are `Node`s, each a `Leaf` or a `Nested` group.
  - Rules, and run results.
- **The operator table**: `Operators`.
  - The ten operators with their labels and the fact types each one supports.
  - The per-type filter and the label lookup.
- **The engine front end**: `Engine`.
  - Converting conditions, groups and rules into the engine's shape.
  - The fact environment: a supplied value, else the declared default, else the zero of the fact's type.
  - Adding the enabled rules and mapping the engine's answers back into one result per enabled rule.
  - The check for references to undeclared facts.
- **The application store**: `Store`. A class, `EngineStore`, whose fields are the fact list, the rule list, the last run result and an identifier counter. Its actions are:
  - adding, merging and deleting facts and rules by identifier;
  - duplicating a rule with fresh identifiers throughout its tree;
  - `splice`-based reordering;
  - import and export.
- **The editing handlers of the user interface**:
  - the condition-group editor: `ConditionEditor`;
  - one condition row: `ConditionRow`;
  - the rule card: `RuleCard`;
  - drag-and-drop on the rule list: `RuleList`;
  - the fact panel's "used in rules" collection and delete guard: `FactsPanel`;
  - the fact and rule forms: `FactForm` and `RuleForm`;
  - the event-parameter editor: `EventParams`.
- **The helpers and hooks**:
  - the validators: `Validators`;
  - the fact and rule queries and the rule toggle: `UseFacts` and `UseRules`;
  - the engine runner and its default fact values: `EngineRunner`.

**Form of the model.** Code that builds new values by spreading, filtering or
mapping becomes functions, and its properties are lemmas. The store mutates
its state in place, so it is a class, and its actions are methods with
`modifies` clauses. Code that loops with a mutable accumulator becomes a method
with a loop or recursion, proved equal to a specification function. This
covers `runEngine`, `validateRuleConditions`, `getDefaultFactValues`,
`getFactsUsedInRules` and `countConditions`.

**Values and identifiers.**
- A uuid is a natural number. The store draws fresh ones from a counter that it keeps above every identifier in use. Pure handlers receive their fresh identifier as a parameter.
- JSON values are the datatype `Json`. A JavaScript number is a `real`.
- Optional fields are `Option`s. `??` falls through on a missing value and on `null`.

**Foreign code.** These are parameters of the operations that use them:
- the evaluator: `Engine.ForeignEngine`, which decides which rules `addRule` accepts and what `run` yields;
- `JSON.parse`, `JSON.stringify`, `parseFloat`, `parseInt`, and the text of a number.

Wrappers, Seqs and Text hold the generic helpers:
- `Option` and `Result`;
- `filter`, `find`, `findIndex` and `some` on sequences;
- `trim`, ASCII `toLowerCase`, and the fact-name pattern `^[a-zA-Z][a-zA-Z0-9_]*$`.

## Model

| member | source | states |
|---|---|---|
| Types.FactTypeHasFiveMembers | src/store/types.ts:2 | There are exactly five fact types, listed without repetition. |
| Types.OperatorTypeHasTenMembers | src/store/types.ts:13-23 | There are exactly ten operators, listed without repetition. |
| Types.IsConditionGroup | src/store/types.ts:41-45 | A node is a group exactly when it is a nested group: a leaf never has the `type` and `conditions` keys together. |
| Types.KeyTestsDiscriminate | src/store/types.ts:26-45 | Each key test tells a group from a leaf: `conditions` and `type` are present exactly on groups, `fact` exactly on leaves. The conversion, duplication, validation and collection walks branch on these tests. |
| Text.TrimEmptyIffBlank | src/components/facts/FactForm.tsx:50 | Trimming gives the empty string exactly when the text is all white space. |
| Text.FactNameFormatIsTrimmed | src/lib/validators.ts:89 | A name matching the fact-name pattern is non-empty and unchanged by trimming. |
| Operators.RowIndex | src/lib/operators.ts:10-71 | Every operator has a row in the table, and that row carries the operator. |
| Operators.EachOperatorListedOnce | src/lib/operators.ts:10-71 | No operator appears in two rows of the table. |
| Operators.RowIndexUnique | src/lib/operators.ts:10-71 | The row of an operator is the only row carrying it. |
| Operators.FilterOffersListed | src/lib/operators.ts:73-75 | The per-type filter keeps an entry exactly when the entry lists the type. |
| Operators.OfferedIffSupported | src/lib/operators.ts:73-75 | An operator is offered for a type exactly when its table row supports that type. |
| Operators.OperatorsInTableOrder | src/lib/operators.ts:73-75 | The operators offered for a type appear in strictly increasing table order. |
| Operators.RelationalOnlyForNumbers | src/lib/operators.ts:23-47 | The four ordering operators are offered for a type exactly when it is `number`. |
| Operators.ArrayOnlyOperators | src/lib/operators.ts:59-70 | `contains` and `doesNotContain` are offered for a type exactly when it is `array`. |
| Operators.EqualityExceptArrays | src/lib/operators.ts:11-22 | `equal` and `notEqual` are offered for every type except `array`. |
| Operators.MembershipForStringsAndNumbers | src/lib/operators.ts:48-58 | `in` and `notIn` are offered for a type exactly when it is `string` or `number`. |
| Operators.NoFactTypeWithoutOperators | src/lib/operators.ts:73-75 | Every fact type is offered at least two operators. |
| Operators.FindRowByValue | src/lib/operators.ts:78 | In a table without repeated operators, looking an operator up finds its own row. |
| Operators.RowLabel | src/lib/operators.ts:10-71 | Every operator's row carries a non-empty label. |
| Operators.OperatorLabel | src/lib/operators.ts:77-80 | The label lookup returns the operator's table label; the fallback to the operator's own name never applies. |
| Engine.ConvertConditionRoundTrip | src/lib/engine.ts:17-30 | A converted leaf carries the condition's fact, operator, value, path and params. The condition can be rebuilt from it, except that an empty path is dropped. |
| Engine.ConvertChildrenPointwise | src/lib/engine.ts:35-40 | Converting a child list keeps its length and order, converting each child on its own. |
| Engine.ConvertGroupShape | src/lib/engine.ts:42-49 | `all` and `any` groups keep every child, converted, in order. A `not` group becomes its first converted child, and becomes an absent value when it has no children. |
| Engine.ConvertKeepsLeaves | src/lib/engine.ts:32-50 | For trees whose `not` groups have at most one child, conversion keeps the fact names of the leaves, in depth-first order. |
| Engine.ConvertChildrenKeepLeaves | src/lib/engine.ts:35-40 | The same, for a list of children whose `not` groups have at most one child. |
| Engine.NotDropsLaterChildren | src/lib/engine.ts:47-48 | Children after the first do not affect what a `not` group converts to. |
| Engine.ConvertRuleTags | src/lib/engine.ts:52-66 | The engine rule is named by the rule's identifier and keeps its priority and event type. Its params are the rule's own params plus `ruleName` and `ruleId`, which override same-named entries; all other params pass through unchanged. |
| Engine.DefaultForType | src/lib/engine.ts:122-135 | The zero value of each fact type has that type. |
| Engine.EffectiveValueFallback | src/lib/engine.ts:88-93 | A fact's value is the supplied value unless it is missing or null, else the declared default unless it is missing or null, else the zero of the fact's type. It is never null. |
| Engine.FactEnvironmentKeys | src/lib/engine.ts:86-93 | The fact environment has exactly the declared fact names as keys. |
| Engine.FactEnvironmentLookup | src/lib/engine.ts:86-93 | A name declared twice takes the effective value of its last declaration. |
| Engine.AcceptedRules | src/lib/engine.ts:78-84 | The rules the engine holds are at most the enabled ones; a rule whose `addRule` throws is skipped. |
| Engine.AddEnabledRules | src/lib/engine.ts:78-84 | The loop that adds rules leaves the engine holding exactly the converted enabled rules that `addRule` accepts, in order. |
| Engine.BuildFactEnvironment | src/lib/engine.ts:86-93 | The loop over facts builds exactly the fact environment. |
| Engine.SuccessOf | src/lib/engine.ts:101-105 | A rule counts as fired only if the engine reports a true result for its identifier. A rule with no report counts as not fired. |
| Engine.RunEngine | src/lib/engine.ts:68-120 | `runEngine` computes the specification of a run. |
| Engine.RuleResultsPerRule | src/lib/engine.ts:100-108 | There is one result per enabled rule, in order, with the rule's identifier and name and no condition details. Its success is the engine's first report for that identifier, or false when there is none. |
| Engine.RunReportsEnabledRules | src/lib/engine.ts:77-119 | Only the enabled rules run, and all of them; the results are mapped onto them. The run fails exactly when the engine throws. |
| Engine.UnknownFactErrorsAppend | src/lib/engine.ts:144-155 | The errors for two runs of leaves are the errors for each, concatenated. |
| Engine.UnknownFactErrorsEmptyIff | src/lib/engine.ts:144-155 | There are no errors exactly when every leaf names a declared fact. There is at most one error per leaf. |
| Engine.ValidateGroup | src/lib/engine.ts:144-155 | The recursive walk appends one error per leaf naming an undeclared fact, in depth-first order. |
| Engine.NameSet | src/lib/engine.ts:142 | The set of names holds exactly the declared fact names. |
| Engine.ValidateRuleConditions | src/lib/engine.ts:137-159 | A rule's errors are those of the leaves of its tree. |
| Engine.ValidationCleanIff | src/lib/engine.ts:137-159 | A rule validates cleanly exactly when each of its leaves names some declared fact. |
| Store.PickOver | src/store/engineStore.ts:24 | Spreading one partial field over another composes: applying an update twice is applying it once, and an absent field keeps the value. |
| Store.FactPatchLaws | src/store/engineStore.ts:20-27 | Merging an empty update changes nothing, and merging the same update twice is merging it once. Two merges are one merge of the composed update. Fields the update leaves out are kept. |
| Store.RulePatchLaws | src/store/engineStore.ts:41-48 | The same laws for rule updates. |
| Store.UpdatedFactsFrame | src/store/engineStore.ts:20-27 | The length never changes, and an unknown identifier changes nothing. Only the first fact with the identifier is merged; every other position is unchanged. |
| Store.UpdatedRulesFrame | src/store/engineStore.ts:41-48 | The same, for rules. |
| Store.DeletedFacts | src/store/engineStore.ts:29-33 | After a delete no fact has the identifier. Every other fact remains as often as before, nothing is added, and the kept facts sit at increasing positions of the old list that cover every fact without the identifier. |
| Store.DeletedRules | src/store/engineStore.ts:50-54 | The same, for rules: exactly the rules with the identifier are removed, with the others kept in order and multiplicity. |
| Store.RegenNodeShape | src/store/engineStore.ts:66-79 | Regenerating identifiers keeps the shape of a node: group types, leaf contents and child order. |
| Store.RegenChildrenShape | src/store/engineStore.ts:72-77 | The same, for a list of children. |
| Store.RegenNodeIds | src/store/engineStore.ts:66-79 | A node's new identifiers are consecutive fresh numbers, one per group and leaf. |
| Store.RegenChildrenIds | src/store/engineStore.ts:72-77 | The same, for a list of children. |
| Store.RegenerateIdsFacts | src/store/engineStore.ts:66-80 | Regeneration keeps a tree's shape and gives its groups and leaves one new, consecutive identifier each. |
| Store.DuplicateOfFacts | src/store/engineStore.ts:58-80 | The copy is named "<name> (Copy)". It keeps description, priority, event, enabled flag and tree shape, and all its identifiers are new and consecutive. |
| Store.DuplicateIdsFresh | src/store/engineStore.ts:56-84 | No identifier of a duplicate is in use anywhere in the store, and no two of them are equal. |
| Store.MoveFacts | src/store/engineStore.ts:86-91 | Moving keeps the length and puts the moved element where `splice` inserts it. Taking it out again gives the list without it, and the result is a permutation. |
| Store.MoveKeepsMultiset | src/store/engineStore.ts:86-91 | Moving an element neither gains nor loses one. |
| Store.EngineStore.constructor | src/store/engineStore.ts:10-12 | A new store holds no facts, no rules and no last result. |
| Store.EngineStore.FreshBase | src/store/engineStore.ts:16 | The identifier the supply hands out next is above every identifier in use. |
| Store.EngineStore.AddFact | src/store/engineStore.ts:14-18 | Appends exactly one fact, with a fresh identifier; the rules and the last result are untouched. |
| Store.EngineStore.UpdateFact | src/store/engineStore.ts:20-27 | Merges the update into the first fact with the identifier; nothing else changes. |
| Store.EngineStore.DeleteFact | src/store/engineStore.ts:29-33 | Removes exactly the facts with the identifier; nothing else changes. |
| Store.EngineStore.AddRule | src/store/engineStore.ts:35-39 | Appends exactly one rule, with a fresh identifier; the facts and the last result are untouched. |
| Store.EngineStore.UpdateRule | src/store/engineStore.ts:41-48 | Merges the update into the first rule with the identifier; nothing else changes. |
| Store.EngineStore.DeleteRule | src/store/engineStore.ts:50-54 | Removes exactly the rules with the identifier; nothing else changes. |
| Store.EngineStore.DuplicateRule | src/store/engineStore.ts:56-84 | For an unknown identifier nothing changes. Otherwise one copy of the first matching rule is appended, with fresh identifiers throughout. |
| Store.EngineStore.ReorderRules | src/store/engineStore.ts:86-91 | The rule at the start position, read as `splice` reads it, is moved to the end position; nothing else changes. |
| Store.EngineStore.SetLastRunResult | src/store/engineStore.ts:93-96 | Records the result and touches nothing else. |
| Store.EngineStore.ClearLastRunResult | src/store/engineStore.ts:98-101 | Forgets the result and touches nothing else. |
| Store.EngineStore.ImportData | src/store/engineStore.ts:103-108 | After an import, an export gives back exactly the imported data. |
| Store.EngineStore.ExportData | src/store/engineStore.ts:110-116 | An export holds exactly the current facts and rules. |
| ConditionEditor.AddCondition | src/components/conditions/ConditionGroup.tsx:37-48 | Appends one blank `equal` leaf with the fresh identifier. The group's identifier, type and existing children are unchanged. |
| ConditionEditor.AddGroup | src/components/conditions/ConditionGroup.tsx:50-60 | Appends one empty `all` group with the fresh identifier and changes nothing else. |
| ConditionEditor.UpdateCondition | src/components/conditions/ConditionGroup.tsx:62-69 | Replaces exactly the child at the index; the length and the other children are unchanged. |
| ConditionEditor.KeepOtherPositionsSlices | src/components/conditions/ConditionGroup.tsx:72 | Filtering out one position removes exactly that element, and an out-of-range position removes nothing. |
| ConditionEditor.RemoveConditionEffect | src/components/conditions/ConditionGroup.tsx:71-74 | Removes exactly the child at the index, and later children shift left. An out-of-range index leaves the group unchanged. |
| ConditionEditor.ChangeGroupType | src/components/conditions/ConditionGroup.tsx:76-78 | Changes the combinator only. |
| ConditionEditor.EditsUndo | src/components/conditions/ConditionGroup.tsx:37-78 | Removing the last child undoes adding a condition or a group, and changing the combinator back undoes changing it. |
| ConditionEditor.AddsOnLeaves | src/components/conditions/ConditionGroup.tsx:37-60 | Adding a condition appends its leaf to the tree's leaves; adding a group adds no leaf. |
| ConditionEditor.RemoveOnLeaves | src/components/conditions/ConditionGroup.tsx:71-74 | Removing a child removes exactly that child's leaves from the tree's leaves. |
| ConditionEditor.ChildrenWithinEach | src/components/conditions/ConditionGroup.tsx:115-120 | A child list fits within a depth exactly when each child does. |
| ConditionEditor.EditsStayWithinDepth | src/components/conditions/ConditionGroup.tsx:37-120 | A group within depth 3 stays within it after appending a leaf, after appending a group where the control is offered (below depth 3), after replacing a child with one within the next level, after removing any child, and after any change of combinator. |
| ConditionRow.SelectedTypeOfFirstNamed | src/components/conditions/OperatorSelect.tsx:18-22 | The operator list is the one for the type of the first fact with the condition's name, or for `string` when no fact has it. |
| ConditionRow.OfferedForSelectedFact | src/components/conditions/OperatorSelect.tsx:18-22 | The row offers an operator exactly when the table supports it for that type. |
| ConditionRow.FirstNamedIsFound | src/hooks/useFacts.ts:10-12 | The name lookup finds the fact at the first position that has the name. |
| ConditionRow.HandleFactChangeAsWritten | src/components/conditions/ConditionRow.tsx:27-36 | As written, a fact change always picks `equal`. It resets the value by the fact's type and keeps identifier, path and params; AsWrittenSelectsUnofferedOperator shows the consequence. |
| ConditionRow.AsWrittenSelectsUnofferedOperator | src/components/conditions/ConditionRow.tsx:33 | After choosing an array fact, the handler as written leaves the row on `equal`, which the row does not offer for that fact. |
| ConditionRow.FirstOffered | src/lib/operators.ts:10-75 | Every type is offered some operator. The first one offered is `contains` for arrays and `equal` for every other type. |
| ConditionRow.FirstOfferedOperator | src/components/conditions/ConditionRow.tsx:33 | The operator a fact change switches to is one the row offers for the new fact. |
| ConditionRow.HandleFactChange | src/components/conditions/ConditionRow.tsx:27-36 | A fact change sets the new fact and an operator the row offers for it. It resets the value to `0` for number facts and to `''` otherwise, and keeps the identifier, path and params. |
| ConditionRow.CorrectionOnlyForArrays | src/components/conditions/ConditionRow.tsx:33 | The corrected handler agrees with the one as written for every type except arrays, where it picks `contains`. |
| ConditionRow.ShowPathInput | src/components/conditions/ConditionRow.tsx:38-39 | The path input is shown exactly when the first fact with the condition's name is an object or array fact. |
| ConditionRow.PathEditRoundTrip | src/components/conditions/ConditionRow.tsx:67-70 | The input shows what was typed, an empty path is never stored, and only the path changes. The engine receives the typed path, or none once the input is cleared. Re-entering the shown text changes nothing. |
| RuleCard.WholeRuleReplaces | src/components/rules/RuleList.tsx:114 | Passing the whole edited rule as an update replaces the stored rule with it. |
| RuleCard.ToggleEnabledAgrees | src/components/rules/RuleCard.tsx:32-34 | Toggling from the card flips only `enabled`, and toggling twice restores the rule. Stored through the update action, it agrees with the rules hook's toggle. |
| RuleCard.PriorityFromInput | src/components/rules/RuleCard.tsx:135-139 | The priority input stores the parsed number, or 1 when it is not a number or is 0; never 0. |
| RuleCard.EditsRoundTrip | src/components/rules/RuleCard.tsx:123-156 | Editing the name or description to its shown text changes nothing, except that an empty description becomes absent. A stored priority re-entered is kept, and no edit stores priority 0. |
| RuleCard.CountConditions | src/components/rules/RuleCard.tsx:180-190 | The count is the number of leaves in the tree; groups count nothing themselves. |
| RuleList.HandleDragEnd | src/components/rules/RuleList.tsx:89-97 | Nothing is reordered without a drop target or on a drop onto itself. Otherwise the positions passed on are those of the dragged rule and the target rule. |
| RuleList.DropMovesRuleToTarget | src/components/rules/RuleList.tsx:89-97 | Dropping one listed rule onto another passes both positions, in range, and the reorder moves the dragged rule to the target's position as a permutation. |
| RuleList.DropOnSelfIgnored | src/components/rules/RuleList.tsx:92 | A drop onto itself or onto nothing reorders nothing. |
| FactsPanel.FactSetAppend | src/components/facts/FactsPanel.tsx:17-40 | The fact names of two runs of leaves are the union of each run's names. |
| FactsPanel.UsedFactNamesIff | src/components/facts/FactsPanel.tsx:17-40 | A name is used exactly when some leaf of some rule's tree names it. |
| FactsPanel.CheckConditions | src/components/facts/FactsPanel.tsx:20-33 | The recursive walk adds exactly the leaves' fact names to the set. |
| FactsPanel.GetFactsUsedInRules | src/components/facts/FactsPanel.tsx:17-40 | The collection is the set of fact names used in the rules. |
| FactsPanel.HandleDeleteFact | src/components/facts/FactsPanel.tsx:56-63 | The delete is refused, changing nothing, exactly when some rule uses the fact's name. Otherwise exactly the facts with its identifier are removed. |
| FactsPanel.ReferencesDeclaredIffValid | src/components/facts/FactsPanel.tsx:56-63 | Every rule's leaves name a declared fact exactly when every rule validates without errors. |
| FactsPanel.DeleteGuardKeepsReferences | src/components/facts/FactsPanel.tsx:56-63 | A delete the guard lets through keeps every rule's references declared. |
| Validators.IsDuplicate | src/lib/validators.ts:92-94 | A name is a duplicate exactly when some existing name equals it ignoring case and is not the exempted string. |
| Validators.ValidateFactNameAsWritten | src/lib/validators.ts:83-97 | As written: the empty name is refused as missing, a non-empty name off the pattern as malformed, a well-formed name that clashes case-insensitively with an existing name not equal to the identifier's text as taken, and every other name passes. |
| Validators.AsWrittenIgnoresCurrent | src/lib/validators.ts:83-97 | Whatever identifier is passed, the check as written gives exactly what the check with no exemption gives. |
| Validators.CurrentIdNeverExempts | src/lib/validators.ts:92-95 | Passing an identifier changes nothing: an identifier's text starts with a digit, and a clashing name starts with a letter. |
| Validators.AsWrittenRefusesOwnName | src/lib/validators.ts:92-95 | The check as written refuses to let fact `age` keep its own name. |
| Validators.ValidateFactName | src/lib/validators.ts:83-97 | Each error is reported exactly in its case, in order: empty, then malformed, then a clash other than the fact's own name. No error means well formed with no foreign clash. |
| Validators.CorrectedAcceptsOwnName | src/lib/validators.ts:92-95 | With the current name exempted, a fact may keep its own name. |
| Validators.ParsedValueShape | src/lib/validators.ts:99-116 | Parsing gives a value of the fact's type for numbers, booleans and strings. For arrays and objects it gives what `JSON.parse` yields, or the empty value when it throws. A boolean is true exactly when the lowercased text is "true"; a non-number reads as 0. |
| Validators.DisplayParseRoundTrip | src/lib/validators.ts:99-124 | A value's display text parses back to the value. This holds always for booleans and strings, and for numbers and JSON values when their text reads back. A missing or `null` value shows as empty text. |
| FactForm.SubmitAcceptsIffValid | src/components/facts/FactForm.tsx:45-82 | The form submits exactly when the name validation, with the edited fact's name exempted, accepts the name. |
| FactForm.SubmitKeepsTypedName | src/components/facts/FactForm.tsx:74-79 | A submitted name is exactly what was typed. |
| FactForm.SubmitErrorMatchesValidation | src/components/facts/FactForm.tsx:50-68 | A refusal carries the same error as the name validation, unless the name is all white space. |
| FactForm.BlankNameReportedMissing | src/components/facts/FactForm.tsx:50-60 | A name of white space only is reported as missing by the form, while the validation reports it as malformed. |
| FactForm.ResubmitName | src/components/facts/FactForm.tsx:62-64 | A well-formed name that clashes with no other is trimmed already and is not a duplicate of itself. |
| FactForm.ResubmitDefault | src/components/facts/FactForm.tsx:32-34 | A default value whose display text reads back is rebuilt unchanged on submit, and an absent default stays absent. |
| FactForm.ResubmitPassesChecks | src/components/facts/FactForm.tsx:50-68 | The name of an opened fact that is well formed and clashes with no other passes all three name checks. |
| FactForm.ResubmitBuildsSame | src/components/facts/FactForm.tsx:70-79 | The fields of an opened fact, with a trimmed description and a default that reads back, build that same fact. |
| FactForm.ResubmitUnchanged | src/components/facts/FactForm.tsx:28-82 | Opening an existing fact and submitting it unchanged gives the same fact back. |
| RuleForm.SubmitChecks | src/components/rules/RuleForm.tsx:40-73 | A blank name is refused first, then a blank event type. What is submitted has both trimmed and non-empty, and the priority as entered. |
| RuleForm.SubmitKeepsOrCreates | src/components/rules/RuleForm.tsx:54-69 | A new rule gets an empty `all` tree, no event params and is enabled. An edited rule keeps its tree, params and enabled flag. |
| RuleForm.ResubmitUnchanged | src/components/rules/RuleForm.tsx:25-73 | Opening a rule and submitting it unchanged gives the rule back. A new form starts at priority 1, and the priority input never yields 0. |
| EventParams.AddParamEffect | src/components/events/EventParamsEditor.tsx:19-32 | A blank key reports no change. Otherwise exactly the trimmed key is set, to the parsed value or the raw text, and every other entry is kept. |
| EventParams.RemoveUndoesAdd | src/components/events/EventParamsEditor.tsx:34-38 | Removing drops exactly one key and keeps the rest. It undoes adding a key that was not there. |
| EventParams.EditShownText | src/components/events/EventParamsEditor.tsx:40-53 | Re-entering an entry's shown text keeps the entry when that text reads back as the same value. A string that is itself JSON text is replaced by the parsed value. |
| UseFacts.GetFactByName | src/hooks/useFacts.ts:10-12 | Finds the first fact with exactly that name, or nothing when no fact has it. |
| UseFacts.GetFactById | src/hooks/useFacts.ts:14-16 | Finds the first fact with that identifier, or nothing when no fact has it. |
| UseFacts.IsFactNameUnique | src/hooks/useFacts.ts:18-22 | A name is unique exactly when every fact whose name equals it ignoring case is the excluded one. |
| UseFacts.UniqueNameKeepsNamesDistinct | src/hooks/useFacts.ts:18-22 | Adding a fact whose name passes the check keeps all names distinct ignoring case. |
| UseFacts.ExcludingOwnId | src/hooks/useFacts.ts:18-22 | Excluding a fact's own identifier ignores exactly that fact. Its own name then passes when the names are distinct. |
| UseRules.GetRuleById | src/hooks/useRules.ts:12-14 | Finds the first rule with that identifier, or nothing when no rule has it. |
| UseRules.GetEnabledRules | src/hooks/useRules.ts:16-18 | Gives exactly the enabled rules, in order: the same list the engine runs. |
| UseRules.InsertKeepsOrder | src/hooks/useRules.ts:20-22 | Inserting into a list sorted by descending priority keeps it sorted. |
| UseRules.InsertPermutes | src/hooks/useRules.ts:20-22 | Inserting adds exactly one element. |
| UseRules.InsertStable | src/hooks/useRules.ts:20-22 | An inserted rule goes before all rules of equal priority already in the list, whose order is kept. |
| UseRules.RulesByPrioritySorted | src/hooks/useRules.ts:20-22 | Sorting by priority gives a descending permutation of the rules. |
| UseRules.RulesByPriorityStable | src/hooks/useRules.ts:20-22 | Rules of equal priority keep their relative order. |
| UseRules.ToggleTwice | src/hooks/useRules.ts:24-29 | The toggle flips `enabled` of the first rule with the identifier and changes nothing for an unknown one. Toggling twice restores the list. |
| UseRules.ToggleRuleEnabled | src/hooks/useRules.ts:24-29 | The store's rules become the toggled list, and nothing else in the store changes. |
| EngineRunner.GetDefaultFactValues | src/hooks/useEngineRunner.ts:37-43 | The defaults are the engine's fact environment with nothing supplied: exactly one entry per declared name. |
| EngineRunner.LastWithName | src/hooks/useEngineRunner.ts:39-41 | A declared name has a last declaration, and that one sets its value. |
| EngineRunner.DefaultsChangeNothing | src/hooks/useEngineRunner.ts:37-43 | Running with the default fact values gives the same environment as running with none supplied. |
| EngineRunner.Run | src/hooks/useEngineRunner.ts:14-35 | On success the run returns the result and records it as the last result. On failure it returns nothing and reports the error's message, or "Failed to run engine" for a thrown non-error, keeping the last result. Facts and rules never change. |

## Left out

- The evaluator inside `json-rules-engine` is not part of this model. It is the parameter `Engine.ForeignEngine`: which rules `addRule` accepts, and the events and per-rule results (or the exception) that `run` produces. Operator semantics, JSON-path navigation and the meaning of `not` with no children are therefore not modelled.
- Timing is not modelled: `performance.now()`, `new Date()`, and a run result's `timestamp` and `executionTime`.
- `async`/`await` and React state are not modelled: `isRunning`, the `error` setter, the `useEffect` form resets and toast messages. `EngineRunner.Run` returns the error message instead of setting it.
- Persistence is not modelled: `saveToStorage`, `loadFromStorage`, and file import and export through the browser.
- `JSON.parse`, `JSON.stringify`, `parseFloat`, `parseInt` and number-to-text are function parameters. A lemma relies only on what its `requires` states about them.
- Numbers are unbounded reals. IEEE-754 rounding, `NaN` and `-0` are not modelled; `parseFloat`'s `NaN` is its `None`.
- `toLowerCase` folds ASCII letters only.
- The zod schemas are not modelled. `reset` is declared in the store's type but has no implementation, so there is nothing to model.
- Identifiers are natural numbers. A uuid's randomness is a counter that the store keeps above every identifier in use.
- Object key order in maps (`Object.entries` order) is not modelled. Maps are unordered.
- The duplicate copy made by `JSON.parse(JSON.stringify(rule))` is a plain value copy. Values that JSON text cannot carry (`undefined` inside arrays, functions) do not arise in the model.
- `ConditionEditor.UpdateCondition` requires an index in range. Assigning past the end of a JavaScript array leaves holes, which the model does not represent.
- `Store.EngineStore.ReorderRules` requires a non-empty list and a start position below its length. Otherwise `splice` removes nothing and inserts `undefined`, which is not a rule.
- `RuleList.HandleDragEnd` computes positions with `findIndex`, which is -1 for an identifier not in the list. Dropping one listed rule onto another is covered by `RuleList.DropMovesRuleToTarget`.
- Setting the operator or the value of a condition row, a plain spread of one field, has no members of its own.
- The rendering components are not modelled: layout, cards, selectors, the value input, the results and events views, and the fact-values modal.

## Findings

| source | as written | input that shows it | evidently intended | confidence | as-written member | corrected member |
|---|---|---|---|---|---|---|
| src/lib/validators.ts:92-95 | The existing names are compared with the fact's identifier, `n !== currentId`. A name that clashes with a well-formed name also matches the name pattern, and an identifier never does: a uuid contains hyphens, and in this model an identifier's text starts with a digit. So the exemption never applies, and keeping a fact's own name is refused. | `validateFactName("age", ["age"], <id of age>)` gives "A fact with this name already exists" | Exempt the edited fact's current name, as the fact form does | not executed | Validators.ValidateFactNameAsWritten | Validators.ValidateFactName |
| src/components/conditions/ConditionRow.tsx:33 | Both arms of `fact?.type === 'number' ? 'equal' : 'equal'` pick `equal`, so choosing an array fact leaves the row on `equal`. The operator list offers only `contains` and `doesNotContain` for arrays. | choosing fact `tags` of type `array` | Switch to an operator the row offers for the new fact: the first one, `contains` for arrays and `equal` otherwise | not executed | ConditionRow.HandleFactChangeAsWritten | ConditionRow.HandleFactChange |
