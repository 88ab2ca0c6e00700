/** Save-time checking of event rules (`EventRulesService`), acceptance of a request under
    a rule (`MessageRequestsService.create`) and rendering by the worker. */
module EventRules {
  import opened Wrappers
  import opened JsText
  import opened StringOrder
  import opened Placeholders
  import opened TemplateVariables

  datatype ChannelStrategy = SMS_ONLY | ALIMTALK_ONLY | ALIMTALK_THEN_SMS
  datatype BindingMode = DEFAULT | CUSTOM

  /** A template row; the stored variables are the strings of its JSON column. */
  datatype TemplateRow = TemplateRow(body: string, requiredVariables: seq<string>, published: bool)
  datatype ProviderTemplate = ProviderTemplate(approved: bool, template: TemplateRow)

  /** What the provider says about the default template of an event. */
  datatype DefaultTemplate = NoEvent | NotConfigured | NotFound | NotApproved | Default(requiredVariables: seq<string>)

  datatype RuleDto = RuleDto(
    strategy: ChannelStrategy,
    bindingMode: BindingMode,
    requiredVariables: seq<string>,
    smsTemplateId: Option<string>,
    smsSenderNumberId: Option<string>,
    alimtalkTemplateId: Option<string>,
    alimtalkSenderProfileId: Option<string>)

  /** The rows found for the ids of a rule: sender numbers and profiles by their approval. */
  datatype Bindings = Bindings(
    smsTemplate: Option<TemplateRow>,
    smsSenderApproved: Option<bool>,
    alimtalkTemplate: Option<ProviderTemplate>,
    senderProfileActive: Option<bool>,
    defaultTemplate: DefaultTemplate)

  /** A row is only looked up for an id that is present. */
  predicate LoadedFor(dto: RuleDto, b: Bindings) {
    && (b.smsTemplate.Some? ==> dto.smsTemplateId.Some?)
    && (b.smsSenderApproved.Some? ==> dto.smsSenderNumberId.Some?)
    && (b.alimtalkTemplate.Some? ==> dto.alimtalkTemplateId.Some?)
    && (b.senderProfileActive.Some? ==> dto.alimtalkSenderProfileId.Some?)
  }

  datatype RuleError =
    | PARTIAL_SMS | DEFAULT_WITH_TEMPLATE | PARTIAL_ALIMTALK
    | SMS_TEMPLATE_NOT_FOUND | SMS_SENDER_NOT_FOUND | ALIMTALK_TEMPLATE_NOT_FOUND | SENDER_PROFILE_NOT_FOUND
    | SENDER_PROFILE_INACTIVE | DEFAULT_TEMPLATE_UNUSABLE | SMS_REQUIRED | ALIMTALK_REQUIRED | NO_CHANNEL
    | SMS_TEMPLATE_UNPUBLISHED | SMS_SENDER_UNAPPROVED | VARIABLE_MISMATCH

  // ---------------------------------------------------------- variable lists

  /** `map(trim).filter(Boolean)`. */
  function TrimmedNames(values: seq<string>): (r: seq<string>)
    ensures forall x | x in r :: x != "" && Trimmed(x)
  {
    if values == [] then []
    else (if Trim(values[0]) != "" then [Trim(values[0])] else []) + TrimmedNames(values[1..])
  }

  function NormalizeVariables(values: seq<string>): seq<string> {
    SortedSet(TrimmedNames(values))
  }

  function GetTemplateRequiredVariables(template: TemplateRow): seq<string> {
    if |template.requiredVariables| > 0 then template.requiredVariables
    else ExtractRequiredVariables(template.body)
  }

  predicate SameVariables(ruleVariables: seq<string>, templateVariables: seq<string>) {
    ruleVariables == NormalizeVariables(templateVariables)
  }

  lemma {:induction false} TrimmedNamesKeep(values: seq<string>)
    requires forall x | x in values :: x != "" && Trimmed(x)
    ensures TrimmedNames(values) == values
  {
    if values != [] {
      assert values[0] in values;
      TrimKeeps(values[0]);
      assert forall x | x in values[1..] :: x in values;
      TrimmedNamesKeep(values[1..]);
      assert values == [values[0]] + values[1..];
    }
  }

  /** Two variable lists pass the comparison exactly when they name the same set of
      non-blank variables; order and repetition do not matter. */
  lemma ListsMatchIffSetsMatch(a: seq<string>, b: seq<string>)
    ensures SameVariables(NormalizeVariables(a), b) <==> Elements(TrimmedNames(a)) == Elements(TrimmedNames(b))
  {
    SortedSetsAgree(TrimmedNames(a), TrimmedNames(b));
  }

  // ------------------------------------------------------- saving a rule

  /** The checks of `validateChannelConfiguration` in order, up to the comparison of the two
      templates with each other. */
  function ChecksBeforePair(dto: RuleDto, b: Bindings): Option<RuleError> {
    var hasSmsConfig := dto.smsTemplateId.Some? && dto.smsSenderNumberId.Some?;
    var hasPartialSmsConfig := (dto.smsTemplateId.Some? || dto.smsSenderNumberId.Some?) && !hasSmsConfig;
    var usesDefault := dto.bindingMode == DEFAULT;
    var hasAlimtalkConfig :=
      dto.alimtalkSenderProfileId.Some? && (usesDefault || dto.alimtalkTemplateId.Some?);
    var hasPartialAlimtalkConfig :=
      (dto.alimtalkTemplateId.Some? || dto.alimtalkSenderProfileId.Some?) && !hasAlimtalkConfig;
    var ruleVariables := NormalizeVariables(dto.requiredVariables);

    if hasPartialSmsConfig then Some(PARTIAL_SMS)
    else if usesDefault && dto.alimtalkTemplateId.Some? then Some(DEFAULT_WITH_TEMPLATE)
    else if hasPartialAlimtalkConfig then Some(PARTIAL_ALIMTALK)
    else if dto.smsTemplateId.Some? && b.smsTemplate.None? then Some(SMS_TEMPLATE_NOT_FOUND)
    else if dto.smsSenderNumberId.Some? && b.smsSenderApproved.None? then Some(SMS_SENDER_NOT_FOUND)
    else if dto.alimtalkTemplateId.Some? && b.alimtalkTemplate.None? then Some(ALIMTALK_TEMPLATE_NOT_FOUND)
    else if dto.alimtalkSenderProfileId.Some? && b.senderProfileActive.None? then Some(SENDER_PROFILE_NOT_FOUND)
    else if b.senderProfileActive == Some(false) then Some(SENDER_PROFILE_INACTIVE)
    else if usesDefault && !b.defaultTemplate.Default? then Some(DEFAULT_TEMPLATE_UNUSABLE)
    else if usesDefault && !SameVariables(ruleVariables,
        b.defaultTemplate.requiredVariables) then Some(VARIABLE_MISMATCH)
    else if dto.strategy == SMS_ONLY && !hasSmsConfig then Some(SMS_REQUIRED)
    else if dto.strategy == ALIMTALK_ONLY && !hasAlimtalkConfig then Some(ALIMTALK_REQUIRED)
    else if dto.strategy == ALIMTALK_THEN_SMS && !hasSmsConfig && !hasAlimtalkConfig then Some(NO_CHANNEL)
    else if b.smsTemplate.Some? && !b.smsTemplate.value.published then Some(SMS_TEMPLATE_UNPUBLISHED)
    else if b.smsSenderApproved == Some(false) then Some(SMS_SENDER_UNAPPROVED)
    else if b.smsTemplate.Some? &&
            !SameVariables(ruleVariables, ExtractRequiredVariables(b.smsTemplate.value.body)) then
      Some(VARIABLE_MISMATCH)
    else if b.alimtalkTemplate.Some? &&
            !SameVariables(ruleVariables, GetTemplateRequiredVariables(b.alimtalkTemplate.value.template)) then
      Some(VARIABLE_MISMATCH)
    else None
  }

  /** All checks; `None` accepts the rule. */
  function ValidateChannelConfiguration(dto: RuleDto, b: Bindings): Option<RuleError> {
    var earlier := ChecksBeforePair(dto, b);
    if earlier.Some? then earlier
    else if b.smsTemplate.Some? && (b.alimtalkTemplate.Some? || dto.bindingMode == DEFAULT) &&
            !SameVariables(NormalizeVariables(ExtractRequiredVariables(b.smsTemplate.value.body)),
              AlimtalkVariables(b)) then
      Some(VARIABLE_MISMATCH)
    else None
  }

  function AlimtalkVariables(b: Bindings): seq<string> {
    if b.alimtalkTemplate.Some? then GetTemplateRequiredVariables(b.alimtalkTemplate.value.template)
    else if b.defaultTemplate.Default? then b.defaultTemplate.requiredVariables
    else []
  }

  /** The final comparison of the two templates with each other is redundant: without it, every
      rule is accepted or refused as before, for the same reason. */
  lemma PairCheckIsRedundant(dto: RuleDto, b: Bindings)
    requires LoadedFor(dto, b)
    ensures ValidateChannelConfiguration(dto, b) == ChecksBeforePair(dto, b)
  {
    hide NormalizeVariables, ExtractRequiredVariables, GetTemplateRequiredVariables;
  }

  /** The reason for which a rule is refused. */
  predicate HasReason(e: RuleError, dto: RuleDto, b: Bindings) {
    match e
    case PARTIAL_SMS => dto.smsTemplateId.Some? != dto.smsSenderNumberId.Some?
    case DEFAULT_WITH_TEMPLATE => dto.bindingMode == DEFAULT && dto.alimtalkTemplateId.Some?
    case PARTIAL_ALIMTALK =>
      dto.bindingMode == CUSTOM && dto.alimtalkTemplateId.Some? != dto.alimtalkSenderProfileId.Some?
    case SMS_TEMPLATE_NOT_FOUND => dto.smsTemplateId.Some? && b.smsTemplate.None?
    case SMS_SENDER_NOT_FOUND => dto.smsSenderNumberId.Some? && b.smsSenderApproved.None?
    case ALIMTALK_TEMPLATE_NOT_FOUND => dto.alimtalkTemplateId.Some? && b.alimtalkTemplate.None?
    case SENDER_PROFILE_NOT_FOUND => dto.alimtalkSenderProfileId.Some? && b.senderProfileActive.None?
    case SENDER_PROFILE_INACTIVE => b.senderProfileActive == Some(false)
    case DEFAULT_TEMPLATE_UNUSABLE => dto.bindingMode == DEFAULT && !b.defaultTemplate.Default?
    case SMS_REQUIRED => dto.strategy == SMS_ONLY && dto.smsTemplateId.None?
    case ALIMTALK_REQUIRED => dto.strategy == ALIMTALK_ONLY && dto.alimtalkSenderProfileId.None?
    case NO_CHANNEL =>
      dto.strategy == ALIMTALK_THEN_SMS && dto.smsTemplateId.None? && dto.alimtalkSenderProfileId.None?
    case SMS_TEMPLATE_UNPUBLISHED => b.smsTemplate.Some? && !b.smsTemplate.value.published
    case SMS_SENDER_UNAPPROVED => b.smsSenderApproved == Some(false)
    case VARIABLE_MISMATCH => !VariablesAgree(dto, b)
  }

  /** The names that a template and the rule require are the same. */
  predicate NamesAgree(dto: RuleDto, names: seq<string>) {
    Elements(TrimmedNames(dto.requiredVariables)) == Elements(TrimmedNames(names))
  }

  /** The rule requires the names of every template that it uses: those in the body of an SMS, those
      stored with an AlimTalk template, or in its body if there are none, and those of the default template. */
  predicate VariablesAgree(dto: RuleDto, b: Bindings) {
    && (b.smsTemplate.Some? ==> NamesAgree(dto, ExtractRequiredVariables(b.smsTemplate.value.body)))
    && (b.alimtalkTemplate.Some? ==>
          var template := b.alimtalkTemplate.value.template;
          if template.requiredVariables != [] then NamesAgree(dto, template.requiredVariables)
          else NamesAgree(dto, ExtractRequiredVariables(template.body)))
    && (dto.bindingMode == DEFAULT && b.defaultTemplate.Default? ==>
          NamesAgree(dto, b.defaultTemplate.requiredVariables))
  }

  /** A rule is saved exactly when none of the reasons to refuse it holds, and otherwise the error
      is one that does. */
  lemma RuleIsSavedIff(dto: RuleDto, b: Bindings)
    requires LoadedFor(dto, b)
    ensures match ValidateChannelConfiguration(dto, b)
            case None => forall e :: !HasReason(e, dto, b)
            case Some(e) => HasReason(e, dto, b)
  {
    hide NormalizeVariables, ExtractRequiredVariables, TrimmedNames, Elements;
    PairCheckIsRedundant(dto, b);
    if b.smsTemplate.Some? {
      ListsMatchIffSetsMatch(dto.requiredVariables, ExtractRequiredVariables(b.smsTemplate.value.body));
    }
    if b.alimtalkTemplate.Some? {
      var template := b.alimtalkTemplate.value.template;
      ListsMatchIffSetsMatch(dto.requiredVariables, template.requiredVariables);
      ListsMatchIffSetsMatch(dto.requiredVariables, ExtractRequiredVariables(template.body));
    }
    if b.defaultTemplate.Default? {
      ListsMatchIffSetsMatch(dto.requiredVariables, b.defaultTemplate.requiredVariables);
    }
  }

  // --------------------------------------------------- accepting a request

  /** A JSON variable: `null`, a text, or a number by its decimal text. */
  datatype Value = Null | Text(text: string) | Number(text: string) {
    /** `String(value)`. */
    function Printed(): string {
      if Null? then "null" else text
    }
  }

  /** The required keys without a usable value, in order. */
  function MissingRequiredVariables(required: seq<string>, payload: map<string, Value>): seq<string> {
    if required == [] then []
    else
      var key := required[0];
      (if key !in payload || payload[key] == Null || payload[key] == Text("") then [key] else [])
      + MissingRequiredVariables(required[1..], payload)
  }

  lemma {:induction false} NothingMissing(required: seq<string>, payload: map<string, Value>)
    ensures MissingRequiredVariables(required, payload) == []
       <==> forall key | key in required :: key in payload && payload[key] != Null && payload[key] != Text("")
  {
    if required != [] {
      NothingMissing(required[1..], payload);
      assert required == [required[0]] + required[1..];
    }
  }

  datatype Channel = SMS | ALIMTALK
  datatype Resolution = Resolution(channel: Channel, template: TemplateRow)
  datatype Acceptance =
    | Accepted(resolution: Resolution)
    | MissingVariables(missing: seq<string>)
    | ChannelNotReady

  /** The decision of `resolveChannel` for a rule that is bound to its own templates. */
  function ResolveChannel(strategy: ChannelStrategy, b: Bindings): Option<Resolution> {
    var hasApprovedAlimtalk :=
      b.alimtalkTemplate.Some? && b.alimtalkTemplate.value.approved && b.senderProfileActive == Some(true);
    var hasSms := b.smsTemplate.Some? && b.smsTemplate.value.published && b.smsSenderApproved == Some(true);
    if strategy == SMS_ONLY then
      if hasSms then Some(Resolution(SMS, b.smsTemplate.value)) else None
    else if strategy == ALIMTALK_ONLY then
      if hasApprovedAlimtalk then Some(Resolution(ALIMTALK, b.alimtalkTemplate.value.template)) else None
    else if hasApprovedAlimtalk then Some(Resolution(ALIMTALK, b.alimtalkTemplate.value.template))
    else if hasSms then Some(Resolution(SMS, b.smsTemplate.value))
    else None
  }

  predicate AlimtalkReady(b: Bindings) {
    b.alimtalkTemplate.Some? && b.alimtalkTemplate.value.approved && b.senderProfileActive == Some(true)
  }

  predicate SmsReady(b: Bindings) {
    b.smsTemplate.Some? && b.smsTemplate.value.published && b.smsSenderApproved == Some(true)
  }

  /** AlimTalk is taken whenever the strategy allows it and it is ready, SMS only if the strategy
      allows it and AlimTalk is not taken, and each with its own template. */
  lemma ChannelIsResolvedIff(strategy: ChannelStrategy, b: Bindings)
    ensures var r := ResolveChannel(strategy, b);
            var byAlimtalk := strategy != SMS_ONLY && AlimtalkReady(b);
            var bySms := strategy != ALIMTALK_ONLY && SmsReady(b);
            && (r.Some? <==> byAlimtalk || bySms)
            && (byAlimtalk ==> r == Some(Resolution(ALIMTALK, b.alimtalkTemplate.value.template)))
            && (!byAlimtalk && bySms ==> r == Some(Resolution(SMS, b.smsTemplate.value)))
  {}

  /** `create` under an enabled rule in CUSTOM mode. The rule stores the trimmed names of its input. */
  function AcceptRequest(dto: RuleDto, b: Bindings, payload: map<string, Value>): Acceptance {
    var missing := MissingRequiredVariables(TrimmedNames(dto.requiredVariables), payload);
    if missing != [] then MissingVariables(missing)
    else
      match ResolveChannel(dto.strategy, b)
      case None => ChannelNotReady
      case Some(resolution) => Accepted(resolution)
  }

  // ------------------------------------------------------------ the worker

  function Printed(payload: map<string, Value>): map<string, string> {
    map key | key in payload :: payload[key].Printed()
  }

  /** A template written by `TemplatesService`: its stored variables are those of its body. */
  predicate Consistent(template: TemplateRow) {
    template.requiredVariables == ExtractRequiredVariables(template.body)
  }

  /** The bodies and stored variables at acceptance are those of the time the rule was saved;
      approvals and publication may have changed in between. */
  predicate BodiesUnchanged(saved: Bindings, now: Bindings) {
    && (now.smsTemplate.Some? ==>
          && saved.smsTemplate.Some?
          && now.smsTemplate.value.body == saved.smsTemplate.value.body)
    && (now.alimtalkTemplate.Some? ==>
          && saved.alimtalkTemplate.Some?
          && now.alimtalkTemplate.value.template.body == saved.alimtalkTemplate.value.template.body)
  }

  lemma ExtractedNamesAreTrimmed(body: string)
    ensures TrimmedNames(ExtractRequiredVariables(body)) == ExtractRequiredVariables(body)
    ensures Elements(ExtractRequiredVariables(body)) == Keys(Scan(body)) - {""}
  {
    var list := ExtractRequiredVariables(body);
    ExtractedIsSortedKeySet(body, list);
    forall x | x in list ensures x != "" && Trimmed(x) {
      assert x in Elements(list);
      KeysAreTrimmed(body, x);
    }
    TrimmedNamesKeep(list);
  }

  /** A rule that passed the comparison with a body requires exactly its non-blank keys. */
  lemma MatchedRuleCoversKeys(dto: RuleDto, body: string)
    requires SameVariables(NormalizeVariables(dto.requiredVariables), ExtractRequiredVariables(body))
    ensures Elements(TrimmedNames(dto.requiredVariables)) == Keys(Scan(body)) - {""}
  {
    ListsMatchIffSetsMatch(dto.requiredVariables, ExtractRequiredVariables(body));
    ExtractedNamesAreTrimmed(body);
  }

  /** Save-time checking implies send-time success. If a rule bound to its own templates was
      saved, its bodies are unchanged and a request was accepted under it, then the worker
      renders the template of the resolved channel, except for one kind of body: with a
      blank placeholder it renders exactly when the payload has a variable with an empty name. */
  lemma SavedRuleRenders(dto: RuleDto, saved: Bindings, now: Bindings, payload: map<string, Value>)
    requires dto.bindingMode == CUSTOM && LoadedFor(dto, saved)
    requires saved.alimtalkTemplate.Some? ==> Consistent(saved.alimtalkTemplate.value.template)
    requires ValidateChannelConfiguration(dto, saved) == None
    requires BodiesUnchanged(saved, now)
    requires AcceptRequest(dto, now, payload).Accepted?
    ensures var body := AcceptRequest(dto, now, payload).resolution.template.body;
            RenderTemplate(body, Printed(payload)).Rendered? <==> ("" in Keys(Scan(body)) ==> "" in payload)
  {
    hide Scan, Keys, RenderTemplate, SortedSet, TrimmedNames, ExtractRequiredVariables;
    var body := AcceptRequest(dto, now, payload).resolution.template.body;
    assert SameVariables(NormalizeVariables(dto.requiredVariables), ExtractRequiredVariables(body));
    MatchedRuleCoversKeys(dto, body);
    var required := TrimmedNames(dto.requiredVariables);
    NothingMissing(required, payload);
    RenderIsSubstitution(body, Printed(payload));
    assert forall key | key in Keys(Scan(body)) && key != "" :: key in Elements(required);
  }
}
