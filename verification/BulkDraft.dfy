/** Drafting the recipients of a bulk campaign: the loop of `prepareCampaignDraft` for SMS
    and AlimTalk, the two passes of the brand message service, and what the queued worker
    makes of the stored parameters. */
module BulkDraft {
  import opened Wrappers
  import opened AdFormat
  import opened JsText
  import opened StringOrder
  import opened Placeholders
  import opened TemplateVariables
  import opened NhnTemplate
  import opened FirstOccurrence
  import opened Schedules

  /** A managed user; `texts` holds the values of the other fields as texts, system fields
      hiding custom attributes of the same key. */
  datatype User = User(id: string, name: string, phone: string, texts: map<string, string>)

  datatype Draft = Draft(
    managedUserId: string,
    recipientPhone: string,
    recipientName: string,
    recipientGroupingKey: string,
    templateParameters: Option<map<string, string>>)

  datatype Filled = Filled(parameters: map<string, string>) | ValueMissing(variable: string)

  datatype Outcome =
    | Drafted(drafts: seq<Draft>, skippedNoPhone: nat, duplicatePhone: nat)
    | NoRecipient
    | EmptyValue(managedUserId: string, variable: string)

  function NormalizePhoneNumber(value: string): Option<string> {
    var digits := Digits(value);
    if digits == "" then None
    else if StartsWith(digits, "746010") then Some(digits[3..])
    else Some(digits)
  }

  /** A phone is normalised to its digits, less 746 if they start with 746010; a phone without
      digits is none. */
  lemma PhoneIsNormalized(value: string)
    ensures NormalizePhoneNumber(value).Some? <==> Digits(value) != ""
    ensures forall rest :: Digits(value) == "746010" + rest ==> NormalizePhoneNumber(value) == Some("010" + rest)
    ensures Digits(value) != "" && !StartsWith(Digits(value), "746010") ==>
              NormalizePhoneNumber(value) == Some(Digits(value))
  {
    hide Digits;
    forall rest | Digits(value) == "746010" + rest ensures NormalizePhoneNumber(value) == Some("010" + rest) {
      assert Digits(value)[..6] == "746010";
      assert "746010"[3..] == "010";
      assert Digits(value)[3..] == "010" + rest;
    }
  }

  /** `resolveManagedUserFieldValue`: a blank text counts as no value. */
  function FieldValue(user: User, key: string): Option<string> {
    if key == "phone" then NormalizePhoneNumber(user.phone)
    else if key in user.texts && Trim(user.texts[key]) != "" then Some(Trim(user.texts[key]))
    else None
  }

  predicate HasValue(user: User, mapping: map<string, string>, variable: string) {
    variable in mapping ==> FieldValue(user, mapping[variable]).Some?
  }

  predicate Fillable(user: User, required: seq<string>, mapping: map<string, string>) {
    forall i | 0 <= i < |required| :: HasValue(user, mapping, required[i])
  }

  /** Every required variable that is mapped, with the value of its field. */
  ghost predicate ParametersOf(user: User, required: seq<string>, mapping: map<string, string>,
                               parameters: map<string, string>) {
    && (forall v :: v in parameters <==> v in required && v in mapping)
    && (forall v | v in parameters :: v in mapping && FieldValue(user, mapping[v]) == Some(parameters[v]))
  }

  /** Fails on the first required variable whose field has no value. */
  method BuildRecipientTemplateParameters(user: User, required: seq<string>,
                                          mapping: map<string, string>) returns (r: Filled)
    ensures r.Filled? <==> Fillable(user, required, mapping)
    ensures r.Filled? ==> ParametersOf(user, required, mapping, r.parameters)
    ensures r.ValueMissing? ==> FirstWithoutValue(user, required, mapping, r.variable)
  {
    hide FieldValue;
    var parameters: map<string, string> := map[];
    for i := 0 to |required|
      invariant Fillable(user, required[..i], mapping)
      invariant ParametersOf(user, required[..i], mapping, parameters)
    {
      var variable := required[i];
      assert required[..i + 1] == required[..i] + [variable];
      if variable in mapping {
        var value := FieldValue(user, mapping[variable]);
        if value.None? {
          return ValueMissing(variable);
        }
        parameters := parameters[variable := value.value];
      }
    }
    assert required[..|required|] == required;
    return Filled(parameters);
  }

  // ---------------------------------------------------------------- the loop

  function PhoneOf(users: map<string, User>, id: string): Option<string> {
    if id in users then NormalizePhoneNumber(users[id].phone) else None
  }

  function PhoneKeys(users: map<string, User>, ids: seq<string>): (keys: seq<Option<string>>)
    ensures |keys| == |ids| && forall k | 0 <= k < |ids| :: keys[k] == PhoneOf(users, ids[k])
  {
    seq(|ids|, k requires 0 <= k < |ids| => PhoneOf(users, ids[k]))
  }

  /** The positions of the users that get a draft. */
  function Kept(users: map<string, User>, ids: seq<string>): (r: seq<nat>)
    ensures forall i | 0 <= i < |r| :: r[i] < |ids| && IsFirst(PhoneKeys(users, ids), r[i])
  {
    Firsts(PhoneKeys(users, ids), |ids|)
  }

  function WithoutPhone(users: map<string, User>, ids: seq<string>, n: nat): set<nat>
    requires n <= |ids|
  {
    set k | 0 <= k < n && ids[k] in users && PhoneOf(users, ids[k]) == None
  }

  lemma WithoutPhoneStep(users: map<string, User>, ids: seq<string>, n: nat)
    requires n < |ids|
    ensures |WithoutPhone(users, ids, n + 1)|
         == |WithoutPhone(users, ids, n)| + (if ids[n] in users && PhoneOf(users, ids[n]) == None then 1 else 0)
  {
    hide NormalizePhoneNumber;
    if ids[n] in users && PhoneOf(users, ids[n]) == None {
      assert WithoutPhone(users, ids, n + 1) == WithoutPhone(users, ids, n) + {n};
    } else {
      assert WithoutPhone(users, ids, n + 1) == WithoutPhone(users, ids, n);
    }
  }

  predicate ById(users: map<string, User>) {
    forall id | id in users :: users[id].id == id
  }

  function GroupingKey(id: string): string {
    "managed-user:" + id
  }

  /** Whether the SMS service asks for parameters; the AlimTalk service always does. */
  predicate NeedsParameters(always: bool, required: seq<string>) {
    always || required != []
  }

  /** A draft is the user's, with the user's normalised phone and, if asked for, parameters. */
  ghost predicate DraftOf(d: Draft, user: User, always: bool, required: seq<string>, mapping: map<string, string>) {
    && d.managedUserId == user.id
    && Some(d.recipientPhone) == NormalizePhoneNumber(user.phone)
    && d.recipientName == user.name
    && d.recipientGroupingKey == GroupingKey(user.id)
    && (if d.templateParameters.Some? then
          NeedsParameters(always, required) && ParametersOf(user, required, mapping, d.templateParameters.value)
          && (always || d.templateParameters.value != map[])
        else !always && forall i | 0 <= i < |required| :: required[i] !in mapping)
  }

  /** The drafts are those of the first users, by position, with their phone. */
  ghost predicate DraftsOf(drafts: seq<Draft>, users: map<string, User>, ids: seq<string>, positions: seq<nat>,
                           always: bool, required: seq<string>, mapping: map<string, string>)
  {
    && |drafts| == |positions|
    && forall i | 0 <= i < |drafts| ::
         && positions[i] < |ids| && ids[positions[i]] in users
         && DraftOf(drafts[i], users[ids[positions[i]]], always, required, mapping)
  }

  /** Every user that is to get a draft has the values that are asked for. */
  ghost predicate AllFillable(users: map<string, User>, ids: seq<string>, positions: seq<nat>,
                              always: bool, required: seq<string>, mapping: map<string, string>)
  {
    NeedsParameters(always, required) ==>
      forall i | 0 <= i < |positions| ::
        positions[i] < |ids| && ids[positions[i]] in users ==> Fillable(users[ids[positions[i]]], required, mapping)
  }

  /** The variable is the first required one without a value. */
  ghost predicate FirstWithoutValue(user: User, required: seq<string>, mapping: map<string, string>, variable: string) {
    exists i | 0 <= i < |required| ::
      variable == required[i] && !HasValue(user, mapping, required[i]) && Fillable(user, required[..i], mapping)
  }

  /** The user is the first one, of those to be drafted, who lacks a value, and the variable is the
      first that is lacking. */
  ghost predicate FirstFailure(users: map<string, User>, ids: seq<string>, positions: seq<nat>,
                               required: seq<string>, mapping: map<string, string>, id: string, variable: string)
  {
    exists i | 0 <= i < |positions| && positions[i] < |ids| && ids[positions[i]] in users ::
      && id == users[ids[positions[i]]].id
      && FirstWithoutValue(users[ids[positions[i]]], required, mapping, variable)
      && AllFillable(users, ids, positions[..i], true, required, mapping)
  }

  lemma DraftsStep(drafts: seq<Draft>, d: Draft, users: map<string, User>, ids: seq<string>, positions: seq<nat>,
                   k: nat,
                   always: bool, required: seq<string>, mapping: map<string, string>)
    requires DraftsOf(drafts, users, ids, positions, always, required, mapping)
    requires k < |ids| && ids[k] in users && DraftOf(d, users[ids[k]], always, required, mapping)
    ensures DraftsOf(drafts + [d], users, ids, positions + [k], always, required, mapping)
  {
    hide DraftOf;
  }

  /** The draft of one user. */
  method DraftRecipient(user: User, phone: string, always: bool, required: seq<string>, mapping: map<string, string>)
    returns (draft: Option<Draft>, missing: string)
    requires NormalizePhoneNumber(user.phone) == Some(phone)
    ensures draft.Some? <==> (NeedsParameters(always, required) ==> Fillable(user, required, mapping))
    ensures draft.Some? ==> DraftOf(draft.value, user, always, required, mapping)
    ensures draft.None? ==> NeedsParameters(always, required) && FirstWithoutValue(user, required, mapping, missing)
  {
    hide NormalizePhoneNumber, FieldValue;
    var templateParameters: Option<map<string, string>> := None;
    missing := "";
    if NeedsParameters(always, required) {
      var filled := BuildRecipientTemplateParameters(user, required, mapping);
      match filled
      case ValueMissing(variable) =>
        return None, variable;
      case Filled(parameters) =>
        if always || parameters != map[] {
          templateParameters := Some(parameters);
        } else {
          assert forall v | v in required :: v !in mapping;
        }
    }
    draft := Some(Draft(user.id, phone, user.name, GroupingKey(user.id), templateParameters));
  }

  /** The draft loop: the first user of every phone is drafted, in order, and everyone else is
      counted. It fails when a user to be drafted lacks a value, or when nobody has a phone. */
  method DraftRecipients(users: map<string, User>, ids: seq<string>, always: bool, required: seq<string>,
                         mapping: map<string, string>)
    returns (r: Outcome)
    requires ById(users)
    ensures r.EmptyValue? <==> !AllFillable(users, ids, Kept(users, ids), always, required, mapping)
    ensures r.EmptyValue? ==>
              FirstFailure(users, ids, Kept(users, ids), required, mapping, r.managedUserId, r.variable)
    ensures r.NoRecipient? <==> Kept(users, ids) == []
    ensures r.Drafted? ==> DraftsOf(r.drafts, users, ids, Kept(users, ids), always, required, mapping)
    ensures r.Drafted? ==> r.skippedNoPhone == |WithoutPhone(users, ids, |ids|)|
    ensures r.Drafted? ==> r.duplicatePhone == |Repeats(PhoneKeys(users, ids), |ids|)|
  {
    hide NormalizePhoneNumber, NeedsParameters, Fillable, HasValue, DraftOf, DraftsOf, Firsts, IsFirst, IsRepeat;
    hide Seen, Repeats, WithoutPhone;
    ghost var keys := PhoneKeys(users, ids);
    var seenPhones: set<string> := {};
    var drafts: seq<Draft> := [];
    var skippedNoPhone, duplicatePhone := 0, 0;
    NothingSeen(keys);
    NothingDrafted(users, ids, always, required, mapping);
    for i := 0 to |ids|
      invariant Seen(keys, i, seenPhones)
      invariant DraftsOf(drafts, users, ids, Firsts(keys, i), always, required, mapping)
      invariant AllFillable(users, ids, Firsts(keys, i), always, required, mapping)
      invariant skippedNoPhone == |WithoutPhone(users, ids, i)|
      invariant duplicatePhone == |Repeats(keys, i)|
      invariant |drafts| == |Firsts(keys, i)|
    {
      SeenStep(keys, i, seenPhones);
      FirstsStep(keys, i);
      RepeatsStep(keys, i);
      WithoutPhoneStep(users, ids, i);
      if ids[i] !in users {
        continue;
      }
      var user := users[ids[i]];
      var normalizedPhone := NormalizePhoneNumber(user.phone);
      if normalizedPhone.None? {
        skippedNoPhone := skippedNoPhone + 1;
        continue;
      }
      var phone := normalizedPhone.value;
      if phone in seenPhones {
        assert seenPhones + {phone} == seenPhones;
        duplicatePhone := duplicatePhone + 1;
        continue;
      }
      var draft, missing := DraftRecipient(user, phone, always, required, mapping);
      if draft.None? {
        FirstIsKept(keys, i);
        FailureIsFirst(users, ids, i, always, required, mapping, missing);
        return EmptyValue(user.id, missing);
      }
      DraftsStep(drafts, draft.value, users, ids, Firsts(keys, i), i, always, required, mapping);
      seenPhones := seenPhones + {phone};
      drafts := drafts + [draft.value];
    }
    if drafts == [] {
      return NoRecipient;
    }
    return Drafted(drafts, skippedNoPhone, duplicatePhone);
  }

  lemma NothingDrafted(users: map<string, User>, ids: seq<string>, always: bool, required: seq<string>,
                       mapping: map<string, string>)
    ensures DraftsOf([], users, ids, [], always, required, mapping)
    ensures |WithoutPhone(users, ids, 0)| == 0
  {
    assert WithoutPhone(users, ids, 0) == {};
  }

  lemma {:induction false} FirstsArePrefixes(keys: seq<Option<string>>, m: nat, n: nat)
    requires m <= n <= |keys|
    ensures |Firsts(keys, m)| <= |Firsts(keys, n)| && Firsts(keys, n)[..|Firsts(keys, m)|] == Firsts(keys, m)
    decreases n
  {
    hide IsFirst;
    if m < n { FirstsArePrefixes(keys, m, n - 1); }
  }

  lemma FirstIsKept(keys: seq<Option<string>>, k: nat)
    requires k < |keys| && IsFirst(keys, k)
    ensures var n := |Firsts(keys, k)|;
            && n < |Firsts(keys, |keys|)| && Firsts(keys, |keys|)[n] == k
            && Firsts(keys, |keys|)[..n] == Firsts(keys, k)
  {
    hide IsFirst;
    FirstsArePrefixes(keys, k, |keys|);
    FirstsArePrefixes(keys, k + 1, |keys|);
    assert Firsts(keys, |keys|)[..|Firsts(keys, k)| + 1][|Firsts(keys, k)|] == k;
  }

  /** When the drafting stops at a user, that user is the first who lacks a value. */
  lemma FailureIsFirst(users: map<string, User>, ids: seq<string>, k: nat,
                       always: bool, required: seq<string>, mapping: map<string, string>, variable: string)
    requires k < |ids| && ids[k] in users && IsFirst(PhoneKeys(users, ids), k)
    requires NeedsParameters(always, required) && FirstWithoutValue(users[ids[k]], required, mapping, variable)
    requires AllFillable(users, ids, Firsts(PhoneKeys(users, ids), k), always, required, mapping)
    ensures FirstFailure(users, ids, Kept(users, ids), required, mapping, users[ids[k]].id, variable)
    ensures !AllFillable(users, ids, Kept(users, ids), always, required, mapping)
  {
    hide NormalizePhoneNumber, HasValue, Firsts, IsFirst;
    var keys := PhoneKeys(users, ids);
    FirstIsKept(keys, k);
    var i := |Firsts(keys, k)|;
    assert Kept(users, ids)[i] == k && Kept(users, ids)[..i] == Firsts(keys, k);
    NotFillable(users[ids[k]], required, mapping, variable);
  }

  lemma NotFillable(user: User, required: seq<string>, mapping: map<string, string>, variable: string)
    requires FirstWithoutValue(user, required, mapping, variable)
    ensures !Fillable(user, required, mapping)
  {}

  // ------------------------------------------------- what the drafts are like

  function Found(users: map<string, User>, ids: seq<string>, n: nat): set<nat>
    requires n <= |ids|
  {
    set k | 0 <= k < n && ids[k] in users
  }

  /** Drafts, users without a phone and duplicates make up the users that were found. */
  lemma DraftsPartition(users: map<string, User>, ids: seq<string>)
    ensures |Kept(users, ids)| + |WithoutPhone(users, ids, |ids|)| + |Repeats(PhoneKeys(users, ids), |ids|)|
         == |Found(users, ids, |ids|)|
  {
    hide NormalizePhoneNumber, Firsts, Repeats;
    var keys := PhoneKeys(users, ids);
    FirstsAndRepeats(keys, |ids|);
    var present, blank := Present(keys, |ids|), WithoutPhone(users, ids, |ids|);
    assert Found(users, ids, |ids|) == present + blank;
    assert present !! blank;
  }

  /** No phone and no grouping key occurs in two drafts, and drafts keep the order of the selection. */
  lemma DraftsDiffer(drafts: seq<Draft>, users: map<string, User>, ids: seq<string>,
                     always: bool, required: seq<string>, mapping: map<string, string>, i: nat, j: nat)
    requires ById(users) && DraftsOf(drafts, users, ids, Kept(users, ids), always, required, mapping)
    requires i < j < |drafts|
    ensures drafts[i].recipientPhone != drafts[j].recipientPhone
    ensures drafts[i].recipientGroupingKey != drafts[j].recipientGroupingKey
    ensures Kept(users, ids)[i] < Kept(users, ids)[j]
  {
    hide NormalizePhoneNumber, Firsts, ParametersOf;
    var keys, positions := PhoneKeys(users, ids), Kept(users, ids);
    FirstsAre(keys, |ids|);
    FirstsDiffer(keys, |ids|, i, j);
    assert ids[positions[i]] != ids[positions[j]];
    assert drafts[i].recipientGroupingKey[|"managed-user:"|..] == ids[positions[i]];
    assert drafts[j].recipientGroupingKey[|"managed-user:"|..] == ids[positions[j]];
  }

  /** Whoever has a phone is reached: some draft, of the same user or of one selected
      earlier, has that phone. */
  lemma EveryPhoneIsDrafted(drafts: seq<Draft>, users: map<string, User>, ids: seq<string>,
                            always: bool, required: seq<string>, mapping: map<string, string>, k: nat)
    requires DraftsOf(drafts, users, ids, Kept(users, ids), always, required, mapping)
    requires k < |ids| && ids[k] in users && Digits(users[ids[k]].phone) != ""
    ensures exists i | 0 <= i < |drafts| ::
              Kept(users, ids)[i] <= k
                && Some(drafts[i].recipientPhone) == NormalizePhoneNumber(users[ids[k]].phone)
  {
    hide NormalizePhoneNumber, Firsts, ParametersOf;
    PhoneIsNormalized(users[ids[k]].phone);
    var i := HasFirst(PhoneKeys(users, ids), |ids|, k);
    assert Kept(users, ids)[i] <= k && Some(drafts[i].recipientPhone) == PhoneOf(users, ids[k]);
  }

  predicate AllMapped(required: seq<string>, mapping: map<string, string>) {
    forall i | 0 <= i < |required| :: required[i] in mapping
  }

  /** When every required variable is mapped, the parameter names of a draft are exactly the
      required variables, and no value is empty. */
  lemma ParametersAreTheRequired(d: Draft, user: User, always: bool, required: seq<string>,
                                 mapping: map<string, string>)
    requires DraftOf(d, user, always, required, mapping) && AllMapped(required, mapping)
    ensures NeedsParameters(always, required) <==> d.templateParameters.Some?
    ensures d.templateParameters.Some? ==>
              && d.templateParameters.value.Keys == Elements(required)
              && forall v | v in d.templateParameters.value :: d.templateParameters.value[v] != ""
    ensures d.templateParameters.Some? ==>
              forall v | v in d.templateParameters.value ::
                var key, value := mapping[v], d.templateParameters.value[v];
                if key == "phone" then Some(value) == NormalizePhoneNumber(user.phone)
                else key in user.texts && value == Trim(user.texts[key])
  {
    hide Trim, Digits;
    assert required != [] ==> required[0] in mapping;
  }

  // ------------------------------------------------------------ the selection

  function IdKeys(raws: seq<string>): (keys: seq<Option<string>>)
    ensures |keys| == |raws|
    ensures forall k | 0 <= k < |raws| :: keys[k] == if Trim(raws[k]) == "" then None else Some(Trim(raws[k]))
  {
    seq(|raws|, k requires 0 <= k < |raws| => if Trim(raws[k]) == "" then None else Some(Trim(raws[k])))
  }

  /** `[...new Set(userIds.map(trim).filter(Boolean))]`. */
  function NormalizedUserIds(raws: seq<string>): (ids: seq<string>)
    ensures forall i, j | 0 <= i < j < |ids| :: ids[i] != ids[j]
  {
    var keys, kept := IdKeys(raws), Firsts(IdKeys(raws), |raws|);
    var ids := seq(|kept|, i requires 0 <= i < |kept| => keys[kept[i]].value);
    assert forall i, j | 0 <= i < j < |ids| :: ids[i] != ids[j] by {
      forall i, j | 0 <= i < j < |ids| ensures ids[i] != ids[j] { FirstsDiffer(keys, |raws|, i, j); }
    }
    ids
  }

  const MAX_USERS := 1000

  datatype Preparation =
    | Prepared(outcome: Outcome)
    | UnreadableSchedule
    | PastSchedule
    | NothingSelected
    | TooManySelected
    | NoSenderNumber
    | SomeUsersMissing
    | TemplateMissing
    | EmptyBody
    | NoOptOutNumber
    | UnknownField
    | UnmappedVariables

  /** What a campaign asks for besides its users: when it is to be sent and what time it is now,
      an approved sender number, the text of the body or nothing if the chosen template is
      not there, and the advertisement with the sender's approved 080 number, if there is one. */
  datatype CampaignInput = CampaignInput(
    schedule: Schedule, now: int, senderApproved: bool,
    body: Option<string>, isAdvertisement: bool, serviceName: string, optOutNumber: Option<string>)

  /** The body that is sent. */
  function CampaignBody(input: CampaignInput): string
    requires input.body.Some?
  {
    ManualBody(input.body.value, input.isAdvertisement, input.serviceName,
               if input.optOutNumber.Some? then input.optOutNumber.value else "")
  }

  /** A plain campaign body is trimmed and has LF line ends; the body of an advertisement starts with
      the prefix and the service name and ends with the approved 080 number. */
  lemma CampaignBodyIs(input: CampaignInput)
    requires input.body.Some?
    requires input.isAdvertisement ==> input.optOutNumber.Some? && Approved080Number(input.optOutNumber.value)
    ensures if input.isAdvertisement then
              FramedLines(SplitLines(CampaignBody(input)), SanitizeAdvertisingServiceName(input.serviceName),
                OPT_OUT_WORD + " " + Format080Number(input.optOutNumber.value))
            else CampaignBody(input) == Trim(NormalizeNewlines(Trim(input.body.value)))
  {
    hide Approved080Number, FramedLines, Format080Number, SanitizeAdvertisingServiceName, Trim;
    if input.isAdvertisement {
      var number, name := input.optOutNumber.value, SanitizeAdvertisingServiceName(input.serviceName);
      DefaultIsShortest(number);
      SanitizeIsStable(input.serviceName);
      FirstAndLastLine(Trim(input.body.value), name, ApprovedOptOutText(number));
    }
  }

  /** The owner's users among the selected ones. */
  function Selected(managed: map<string, User>, ids: seq<string>): map<string, User> {
    map id | id in managed && id in ids :: managed[id]
  }

  lemma {:induction false} DistinctCount(ids: seq<string>)
    requires forall i, j | 0 <= i < j < |ids| :: ids[i] != ids[j]
    ensures |Elements(ids)| == |ids|
  {
    if ids != [] {
      var n := |ids| - 1;
      DistinctCount(ids[..n]);
      assert Elements(ids) == Elements(ids[..n]) + {ids[n]};
      assert ids[n] !in Elements(ids[..n]);
    }
  }

  lemma SubsetOfSameSize(a: set<string>, b: set<string>)
    requires a <= b && |a| == |b|
    ensures a == b
  {
    assert b == a + (b - a);
  }

  /** As many users as ids means that every id was found. */
  lemma AllSelectedFound(managed: map<string, User>, ids: seq<string>)
    requires forall i, j | 0 <= i < j < |ids| :: ids[i] != ids[j]
    requires |Selected(managed, ids)| == |ids|
    ensures forall k | 0 <= k < |ids| :: ids[k] in managed
    ensures |Found(Selected(managed, ids), ids, |ids|)| == |ids|
  {
    var users := Selected(managed, ids);
    DistinctCount(ids);
    SubsetOfSameSize(users.Keys, Elements(ids));
    forall k | 0 <= k < |ids| ensures ids[k] in users { assert ids[k] in Elements(ids); }
    EveryoneIsFound(users, ids, |ids|);
  }

  lemma {:induction false} EveryoneIsFound(users: map<string, User>, ids: seq<string>, n: nat)
    requires n <= |ids| && forall k | 0 <= k < n :: ids[k] in users
    ensures |Found(users, ids, n)| == n
  {
    if n > 0 {
      EveryoneIsFound(users, ids, n - 1);
      assert Found(users, ids, n) == Found(users, ids, n - 1) + {n - 1};
    }
  }

  /** The reason of a refusal before the drafts. */
  predicate HasReason(r: Preparation, ids: seq<string>, managed: map<string, User>, input: CampaignInput,
                      fieldKeys: set<string>, mapping: map<string, string>)
  {
    match r
    case UnreadableSchedule => input.schedule.Unreadable?
    case PastSchedule => input.schedule.At? && input.schedule.instant <= input.now
    case NothingSelected => ids == []
    case TooManySelected => |ids| > MAX_USERS
    case NoSenderNumber => !input.senderApproved
    case SomeUsersMissing => exists k | 0 <= k < |ids| :: ids[k] !in managed
    case TemplateMissing => input.body.None?
    case EmptyBody => input.body.Some? && Trim(input.body.value) == ""
    case NoOptOutNumber => input.isAdvertisement && input.optOutNumber.None?
    case UnknownField =>
      input.body.Some? &&
      var required := ExtractRequiredVariables(CampaignBody(input));
      exists v | v in required && v in mapping :: mapping[v] !in fieldKeys
    case UnmappedVariables =>
      input.body.Some? && !AllMapped(ExtractRequiredVariables(CampaignBody(input)), mapping)
    case Prepared(_) => true
  }

  /** No refusal before the drafts has a reason. */
  predicate IsInOrder(ids: seq<string>, managed: map<string, User>, input: CampaignInput,
                      fieldKeys: set<string>, mapping: map<string, string>)
  {
    && InTime(input.schedule, input.now)
    && 1 <= |ids| <= MAX_USERS
    && (forall k | 0 <= k < |ids| :: ids[k] in managed)
    && input.senderApproved && input.body.Some? && Trim(input.body.value) != ""
    && (input.isAdvertisement ==> input.optOutNumber.Some?)
    && forall v | v in ExtractRequiredVariables(CampaignBody(input)) :: v in mapping && mapping[v] in fieldKeys
  }

  /** The checks before the draft loop. */
  method CheckCampaign(ids: seq<string>, managed: map<string, User>, input: CampaignInput,
                       fieldKeys: set<string>, mapping: map<string, string>)
    returns (refusal: Option<Preparation>)
    requires forall i, j | 0 <= i < j < |ids| :: ids[i] != ids[j]
    ensures refusal.Some? ==>
              !refusal.value.Prepared? && HasReason(refusal.value, ids, managed, input, fieldKeys, mapping)
    ensures refusal.None? ==> IsInOrder(ids, managed, input, fieldKeys, mapping)
    ensures refusal.None? ==> |Found(Selected(managed, ids), ids, |ids|)| == |ids|
  {
    hide ExtractRequiredVariables, CampaignBody, Trim, Found, Selected;
    if input.schedule.Unreadable? {
      return Some(UnreadableSchedule);
    }
    if input.schedule.At? && input.schedule.instant <= input.now {
      return Some(PastSchedule);
    }
    if ids == [] {
      return Some(NothingSelected);
    }
    if |ids| > MAX_USERS {
      return Some(TooManySelected);
    }
    if !input.senderApproved {
      return Some(NoSenderNumber);
    }
    if |ids| != |Selected(managed, ids)| {
      MissingUser(managed, ids);
      return Some(SomeUsersMissing);
    }
    AllSelectedFound(managed, ids);
    if input.body.None? {
      return Some(TemplateMissing);
    }
    if Trim(input.body.value) == "" {
      return Some(EmptyBody);
    }
    if input.isAdvertisement && input.optOutNumber.None? {
      return Some(NoOptOutNumber);
    }
    var required := ExtractRequiredVariables(CampaignBody(input));
    if exists v | v in required && v in mapping :: mapping[v] !in fieldKeys {
      return Some(UnknownField);
    }
    if exists i | 0 <= i < |required| :: required[i] !in mapping {
      return Some(UnmappedVariables);
    }
    return None;
  }

  /** `prepareCampaignDraft` of the SMS service, from the selection to the drafts: each refusal has
      its reason, and nobody who was selected is lost. */
  method PrepareCampaignDraft(raws: seq<string>, managed: map<string, User>, input: CampaignInput,
                              fieldKeys: set<string>, mapping: map<string, string>)
    returns (r: Preparation)
    requires ById(managed)
    ensures HasReason(r, NormalizedUserIds(raws), managed, input, fieldKeys, mapping)
    ensures r.Prepared? <==> IsInOrder(NormalizedUserIds(raws), managed, input, fieldKeys, mapping)
    ensures r.Prepared? ==>
              var ids, required := NormalizedUserIds(raws), ExtractRequiredVariables(CampaignBody(input));
              DraftedFrom(r.outcome, Selected(managed, ids), ids, required, mapping)
  {
    hide Firsts, DraftsOf, AllFillable, FirstFailure, NormalizePhoneNumber, ExtractRequiredVariables, CampaignBody;
    hide Trim, Kept, Found, HasReason, IsInOrder;
    var ids := NormalizedUserIds(raws);
    var refusal := CheckCampaign(ids, managed, input, fieldKeys, mapping);
    if refusal.Some? {
      ReasonIsDisorder(refusal.value, ids, managed, input, fieldKeys, mapping);
      return refusal.value;
    }
    BodyIsThere(ids, managed, input, fieldKeys, mapping);
    var users, required := Selected(managed, ids), ExtractRequiredVariables(CampaignBody(input));
    var outcome := DraftRecipients(users, ids, false, required, mapping);
    DraftsPartition(users, ids);
    if outcome.Drafted? { DraftsCount(outcome.drafts, users, ids, false, required, mapping); }
    r := Prepared(outcome);
    PreparedNeedsNone(r, ids, managed, input, fieldKeys, mapping);
  }

  /** A refusal with a reason means that something is not in order. */
  lemma ReasonIsDisorder(r: Preparation, ids: seq<string>, managed: map<string, User>, input: CampaignInput,
                         fieldKeys: set<string>, mapping: map<string, string>)
    requires !r.Prepared? && HasReason(r, ids, managed, input, fieldKeys, mapping)
    ensures !IsInOrder(ids, managed, input, fieldKeys, mapping)
  {
    hide ExtractRequiredVariables, CampaignBody, Trim;
  }

  lemma BodyIsThere(ids: seq<string>, managed: map<string, User>, input: CampaignInput,
                    fieldKeys: set<string>, mapping: map<string, string>)
    requires IsInOrder(ids, managed, input, fieldKeys, mapping)
    ensures input.body.Some?
  {}

  lemma PreparedNeedsNone(r: Preparation, ids: seq<string>, managed: map<string, User>, input: CampaignInput,
                          fieldKeys: set<string>, mapping: map<string, string>)
    requires r.Prepared?
    ensures HasReason(r, ids, managed, input, fieldKeys, mapping)
  {}

  /** The outcome of the draft loop, and that nobody is lost in it. */
  ghost predicate DraftedFrom(outcome: Outcome, users: map<string, User>, ids: seq<string>,
                              required: seq<string>, mapping: map<string, string>)
  {
    var kept := Kept(users, ids);
    match outcome
    case EmptyValue(id, variable) =>
      && !AllFillable(users, ids, kept, false, required, mapping)
      && FirstFailure(users, ids, kept, required, mapping, id, variable)
    case NoRecipient => kept == []
    case Drafted(drafts, skippedNoPhone, duplicatePhone) =>
      && kept != [] && AllFillable(users, ids, kept, false, required, mapping)
      && DraftsOf(drafts, users, ids, kept, false, required, mapping)
      && |drafts| + skippedNoPhone + duplicatePhone == |ids|
  }

  lemma DraftsCount(drafts: seq<Draft>, users: map<string, User>, ids: seq<string>,
                    always: bool, required: seq<string>, mapping: map<string, string>)
    requires DraftsOf(drafts, users, ids, Kept(users, ids), always, required, mapping)
    ensures |drafts| == |Kept(users, ids)|
  {}

  lemma MissingUser(managed: map<string, User>, ids: seq<string>)
    requires forall i, j | 0 <= i < j < |ids| :: ids[i] != ids[j]
    requires |Selected(managed, ids)| != |ids|
    ensures exists k | 0 <= k < |ids| :: ids[k] !in managed
  {
    DistinctCount(ids);
    assert Selected(managed, ids).Keys != Elements(ids);
  }

  // ------------------------------------------------------------- two passes

  /** The brand message service: drafts first, parameters in a second pass over the drafts.
      It ends up with the drafts, or the failure, of the single pass. */
  method DraftInTwoPasses(users: map<string, User>, ids: seq<string>, required: seq<string>,
                          mapping: map<string, string>)
    returns (r: Outcome)
    requires ById(users)
    ensures r.EmptyValue? <==> !AllFillable(users, ids, Kept(users, ids), true, required, mapping)
    ensures r.EmptyValue? ==>
              FirstFailure(users, ids, Kept(users, ids), required, mapping, r.managedUserId, r.variable)
    ensures r.NoRecipient? <==> Kept(users, ids) == []
    ensures r.Drafted? ==> DraftsOf(r.drafts, users, ids, Kept(users, ids), true, required, mapping)
    ensures r.Drafted? ==> r.skippedNoPhone == |WithoutPhone(users, ids, |ids|)|
    ensures r.Drafted? ==> r.duplicatePhone == |Repeats(PhoneKeys(users, ids), |ids|)|
  {
    hide NormalizePhoneNumber, Fillable, HasValue, ParametersOf, Kept, WithoutPhone, Repeats;
    var first := DraftRecipients(users, ids, false, [], map[]);
    if !first.Drafted? {
      return first;
    }
    ghost var positions := Kept(users, ids);
    var recipientDrafts := first.drafts;
    var filledDrafts: seq<Draft> := [];
    for i := 0 to |recipientDrafts|
      invariant DraftsOf(filledDrafts, users, ids, positions[..i], true, required, mapping)
      invariant AllFillable(users, ids, positions[..i], true, required, mapping)
    {
      assert positions[..i + 1] == positions[..i] + [positions[i]];
      var recipient := recipientDrafts[i];
      var user := users[recipient.managedUserId];
      var filled := BuildRecipientTemplateParameters(user, required, mapping);
      match filled
      case ValueMissing(variable) =>
        NotFillable(user, required, mapping, variable);
        return EmptyValue(user.id, variable);
      case Filled(parameters) =>
        var draft := recipient.(templateParameters := Some(parameters));
        DraftsStep(filledDrafts, draft, users, ids, positions[..i], positions[i], true, required, mapping);
        filledDrafts := filledDrafts + [draft];
    }
    assert positions[..|recipientDrafts|] == positions;
    return Drafted(filledDrafts, first.skippedNoPhone, first.duplicatePhone);
  }

  // ---------------------------------------------------- direct send and queue

  /** What the worker reads back from a stored draft. */
  function ParseTemplateParameters(stored: Option<map<string, string>>): Option<map<string, string>> {
    if stored.None? then None
    else
      var entries := map key | key in stored.value && key != "" :: stored.value[key];
      if entries == map[] then None else Some(entries)
  }

  function DirectBody(body: string, required: seq<string>): string {
    if required != [] then NormalizeNhnTemplateBody(body) else body
  }

  predicate SomeParameters(drafts: seq<Draft>) {
    exists i | 0 <= i < |drafts| ::
      var parameters := ParseTemplateParameters(drafts[i].templateParameters);
      parameters.Some? && parameters.value != map[]
  }

  function QueuedBody(body: string, drafts: seq<Draft>): string {
    if SomeParameters(drafts) then NormalizeNhnTemplateBody(body) else body
  }

  /** A campaign that is queued is sent with the same body and the same parameters as one that is sent at once. */
  lemma QueuedIsDirect(drafts: seq<Draft>, users: map<string, User>, ids: seq<string>, body: string,
                       required: seq<string>, mapping: map<string, string>)
    requires DraftsOf(drafts, users, ids, Kept(users, ids), false, required, mapping) && drafts != []
    requires AllMapped(required, mapping) && "" !in required
    ensures QueuedBody(body, drafts) == DirectBody(body, required)
    ensures forall i | 0 <= i < |drafts| ::
              ParseTemplateParameters(drafts[i].templateParameters) == drafts[i].templateParameters
  {
    hide DraftOf, NormalizeNhnTemplateBody, Kept, Elements;
    var positions := Kept(users, ids);
    forall i | 0 <= i < |drafts|
      ensures ParseTemplateParameters(drafts[i].templateParameters) == drafts[i].templateParameters
      ensures drafts[i].templateParameters.Some? <==> required != []
      ensures drafts[i].templateParameters.Some? ==> drafts[i].templateParameters.value != map[]
    {
      StoredParametersAreRead(drafts[i], users[ids[positions[i]]], required, mapping);
    }
    assert SomeParameters(drafts) ==> required != [];
    assert required != [] ==> drafts[0].templateParameters.Some?;
  }

  lemma StoredParametersAreRead(d: Draft, user: User, required: seq<string>, mapping: map<string, string>)
    requires DraftOf(d, user, false, required, mapping) && AllMapped(required, mapping) && "" !in required
    ensures ParseTemplateParameters(d.templateParameters) == d.templateParameters
    ensures d.templateParameters.Some? <==> required != []
    ensures d.templateParameters.Some? ==> d.templateParameters.value != map[]
  {
    ParametersAreTheRequired(d, user, false, required, mapping);
    if d.templateParameters.Some? {
      var parameters := d.templateParameters.value;
      assert (map key | key in parameters && key != "" :: parameters[key]) == parameters;
    }
  }

  /** The parameters that are sent for a draft. */
  function SentParameters(d: Draft): map<string, string> {
    if d.templateParameters.Some? then d.templateParameters.value else map[]
  }

  /** The provider turns the body it is sent and the draft's parameters into the template
      rendered for that recipient. */
  predicate GetsTheTemplate(d: Draft, body: string) {
    RenderTemplate(body, SentParameters(d))
      == Rendered(ProviderFill(DirectBody(body, ExtractRequiredVariables(body)), SentParameters(d)))
  }

  /** Drafts for a body name exactly its non-blank keys, and a body without any is sent as it is. */
  lemma DraftParameters(d: Draft, user: User, body: string, mapping: map<string, string>)
    requires DraftOf(d, user, false, ExtractRequiredVariables(body), mapping)
    requires AllMapped(ExtractRequiredVariables(body), mapping)
    ensures SentParameters(d).Keys == Keys(Scan(body)) - {""}
    ensures "" !in Keys(Scan(body)) ==>
              DirectBody(body, ExtractRequiredVariables(body)) == NormalizeNhnTemplateBody(body)
  {
    hide Scan, Keys, NormalizeNhnTemplateBody, DraftOf, ExtractRequiredVariables;
    var required := ExtractRequiredVariables(body);
    ParametersAreTheRequired(d, user, false, required, mapping);
    ExtractedIsSortedKeySet(body, required);
    if required == [] && "" !in Keys(Scan(body)) {
      assert Elements(required) == {};
      RewriteWithoutPlaceholders(body);
    }
  }

  /** When the provider fills the marks of the rewriting and no others, every draft gets the template. */
  lemma EveryRecipientGetsTheTemplate(d: Draft, user: User, body: string, mapping: map<string, string>)
    requires DraftOf(d, user, false, ExtractRequiredVariables(body), mapping)
    requires AllMapped(ExtractRequiredVariables(body), mapping) && MarksAreOwn(body, Keys(Scan(body)))
    ensures GetsTheTemplate(d, body)
  {
    hide Scan, Keys, RenderTemplate, ProviderFill, NormalizeNhnTemplateBody, DraftOf, ExtractRequiredVariables;
    hide MarksAreOwn, DirectBody;
    DraftParameters(d, user, body, mapping);
    OwnMarksHaveKeys(body, Keys(Scan(body)));
    assert Keys(Scan(body)) - {""} == Keys(Scan(body));
    RewritePreservesMeaning(body, SentParameters(d));
  }

  ghost predicate EveryDraftGetsTheTemplate(body: string) {
    var required := ExtractRequiredVariables(body);
    forall d, user, mapping | DraftOf(d, user, false, required, mapping) && AllMapped(required, mapping) ::
      GetsTheTemplate(d, body)
  }

  /** A field of its own for every variable. */
  function OwnFields(parameters: map<string, string>): map<string, string> {
    map v | v in parameters :: "f" + v
  }

  /** A user with given values in those fields. */
  function OwnUser(parameters: map<string, string>): User {
    var fields := set v | v in parameters :: "f" + v;
    User("u", "", "1", map k | k in fields :: parameters[k[1..]])
  }

  lemma OwnFieldIsRead(parameters: map<string, string>, v: string)
    requires v in parameters && Proper(parameters)
    ensures FieldValue(OwnUser(parameters), OwnFields(parameters)[v]) == Some(parameters[v])
  {
    hide Trim, NormalizePhoneNumber;
    var key := "f" + v;
    assert key[1..] == v && key[0] == 'f';
    assert OwnUser(parameters).texts[key] == parameters[v];
    TrimKeeps(parameters[v]);
  }

  /** Some user gets a draft with given parameters. */
  lemma DraftWith(required: seq<string>, parameters: map<string, string>)
    returns (d: Draft, user: User, mapping: map<string, string>)
    requires parameters.Keys == Elements(required) && Proper(parameters)
    ensures DraftOf(d, user, false, required, mapping) && AllMapped(required, mapping)
    ensures SentParameters(d) == parameters
  {
    hide FieldValue, Proper, NormalizePhoneNumber;
    user, mapping := OwnUser(parameters), OwnFields(parameters);
    d := Draft("u", "1", "", GroupingKey("u"), if required == [] then None else Some(parameters));
    assert forall v :: v in required <==> v in parameters.Keys;
    forall v | v in parameters ensures FieldValue(user, mapping[v]) == Some(parameters[v]) {
      OwnFieldIsRead(parameters, v);
    }
    SomePhone();
    assert required != [] ==> required[0] in parameters;
  }

  lemma SomePhone()
    ensures NormalizePhoneNumber("1") == Some("1")
  {
    DigitsKeep("1");
  }

  /** Exactly which bodies are sent right to every recipient, whoever the users are and however
      their fields are mapped. */
  lemma TemplateIsSentRightIff(body: string)
    ensures EveryDraftGetsTheTemplate(body) <==> MarksAreOwn(body, Keys(Scan(body)))
  {
    hide Scan, Keys, RenderTemplate, ProviderFill, NormalizeNhnTemplateBody, DraftOf, ExtractRequiredVariables;
    hide MarksAreOwn, DirectBody, AllMapped, GetsTheTemplate, Proper;
    var required := ExtractRequiredVariables(body);
    if MarksAreOwn(body, Keys(Scan(body))) {
      forall d, user, mapping | DraftOf(d, user, false, required, mapping) && AllMapped(required, mapping)
        ensures GetsTheTemplate(d, body)
      {
        EveryRecipientGetsTheTemplate(d, user, body, mapping);
      }
    } else {
      ExtractedIsSortedKeySet(body, required);
      var names := Keys(Scan(body));
      var parameters := Same(names - {""});
      if "" in names {
        SameIsProper(names - {""});
      } else {
        parameters := LossIsShown(body, names);
      }
      var d, user, mapping := DraftWith(required, parameters);
      WrongDraft(d, user, body, mapping);
    }
  }

  lemma SameIsProper(names: set<string>)
    ensures Proper(Same(names)) && Same(names).Keys == names
  {
    assert Trimmed("y");
  }

  /** A blank key is missing for every draft, and a loss that is shown is a loss. */
  lemma WrongDraft(d: Draft, user: User, body: string, mapping: map<string, string>)
    requires DraftOf(d, user, false, ExtractRequiredVariables(body), mapping)
    requires AllMapped(ExtractRequiredVariables(body), mapping)
    requires "" in Keys(Scan(body)) || !FilledAsRendered(body, SentParameters(d))
    ensures !GetsTheTemplate(d, body)
  {
    hide Scan, Keys, RenderTemplate, ProviderFill, NormalizeNhnTemplateBody, DraftOf, ExtractRequiredVariables;
    hide DirectBody;
    DraftParameters(d, user, body, mapping);
    RenderIsSubstitution(body, SentParameters(d));
  }

  /** A normalised phone is normalised. */
  lemma NormalizedPhoneIsStable(value: string)
    requires NormalizePhoneNumber(value).Some?
    ensures NormalizePhoneNumber(NormalizePhoneNumber(value).value) == NormalizePhoneNumber(value)
  {
    var digits := Digits(value);
    DigitsKeep(digits);
    if StartsWith(digits, "746010") {
      StartsWithAt(digits, "746010", 3);
      StartsWithAt(digits[3..], "746010", 0);
      DigitsKeep(digits[3..]);
    }
  }
}
