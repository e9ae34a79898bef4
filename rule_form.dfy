/** The rule form: the fields it opens with, the priority input, and its
    submit handler. A new rule gets an empty `all` group whose identifier is
    the `freshId` parameter. */
module RuleForm {
  import opened Wrappers
  import opened Types
  import Text
  import RuleCard

  datatype RuleFields = RuleFields(name: string, description: string, priority: int, eventType: string)

  /** The two ways the form refuses to submit. */
  datatype RuleFormError = RuleNameRequired | EventTypeRequired

  function Message(e: RuleFormError): string {
    match e
    case RuleNameRequired => "Rule name is required"
    case EventTypeRequired => "Event type is required"
  }

  /** The fields on opening: those of the edited rule, or blank with
      priority 1 for a new one. */
  function OpenForm(initialData: Option<Rule>): RuleFields {
    match initialData
    case None => RuleFields("", "", 1, "")
    case Some(r) =>
      RuleFields(r.name, if r.description.Some? then r.description.value else "", r.priority, r.event.eventType)
  }

  /** The priority input, `parseInt(value) || 1`. */
  function SetPriority(form: RuleFields, parsed: Option<int>): RuleFields {
    form.(priority := RuleCard.PriorityFromInput(parsed))
  }

  /** `handleSubmit`: the name, then the event type, must be non-blank; the
      edited rule's tree, event parameters and enabled flag are kept, a new
      rule gets an empty `all` tree, no parameters and is enabled. */
  function HandleSubmit(form: RuleFields, initialData: Option<Rule>, freshId: Id): Result<RuleInput, RuleFormError> {
    if Text.Trim(form.name) == "" then Failure(RuleNameRequired)
    else if Text.Trim(form.eventType) == "" then Failure(EventTypeRequired)
    else
      var conditions := if initialData.Some? then initialData.value.conditions else ConditionGroup(freshId, All, []);
      var params := if initialData.Some? then initialData.value.event.params else None;
      var enabled := if initialData.Some? then initialData.value.enabled else true;
      var description := if Text.Trim(form.description) == "" then None else Some(Text.Trim(form.description));
      Success(RuleInput(Text.Trim(form.name), description, form.priority, conditions,
                        RuleEvent(Text.Trim(form.eventType), params), enabled))
  }

  /** The form refuses exactly a blank name, and otherwise a blank event
      type; what it submits has both trimmed and non-empty. */
  lemma SubmitChecks(form: RuleFields, initialData: Option<Rule>, freshId: Id)
    ensures HandleSubmit(form, initialData, freshId) == Failure(RuleNameRequired) <==> Text.AllWhitespace(form.name)
    ensures HandleSubmit(form, initialData, freshId) == Failure(EventTypeRequired) <==>
      !Text.AllWhitespace(form.name) && Text.AllWhitespace(form.eventType)
    ensures HandleSubmit(form, initialData, freshId).Success? ==>
      var input := HandleSubmit(form, initialData, freshId).value;
      input.name == Text.Trim(form.name) != "" && input.event.eventType == Text.Trim(form.eventType) != "" &&
      input.priority == form.priority
  {
    Text.TrimEmptyIffBlank(form.name);
    Text.TrimEmptyIffBlank(form.eventType);
  }

  /** A new rule starts with an empty `all` group, no event parameters, and
      enabled; an edited rule keeps its tree, parameters and flag. */
  lemma SubmitKeepsOrCreates(form: RuleFields, initialData: Option<Rule>, freshId: Id)
    requires HandleSubmit(form, initialData, freshId).Success?
    ensures initialData.None? ==>
      var input := HandleSubmit(form, initialData, freshId).value;
      input.conditions == ConditionGroup(freshId, All, []) && input.event.params.None? && input.enabled
    ensures initialData.Some? ==>
      var input := HandleSubmit(form, initialData, freshId).value;
      input.conditions == initialData.value.conditions && input.event.params == initialData.value.event.params &&
      input.enabled == initialData.value.enabled
  {
  }

  /** Opening a rule and submitting unchanged gives the rule back, provided
      its name and event type are already trimmed and non-empty and its
      description is absent or already trimmed and non-empty. A new form
      starts at priority 1, and the priority input never yields 0. */
  lemma ResubmitUnchanged(r: Rule, freshId: Id, parsed: Option<int>)
    requires r.name != "" && Text.Trim(r.name) == r.name
    requires r.event.eventType != "" && Text.Trim(r.event.eventType) == r.event.eventType
    requires r.description.Some? ==> r.description.value != "" && Text.Trim(r.description.value) == r.description.value
    ensures HandleSubmit(OpenForm(Some(r)), Some(r), freshId) ==
      Success(RuleInput(r.name, r.description, r.priority, r.conditions, r.event, r.enabled))
    ensures OpenForm(None).priority == 1
    ensures SetPriority(OpenForm(Some(r)), parsed).priority != 0
  {
    if r.description.None? {
      Text.TrimEmptyIffBlank("");
    }
  }
}
