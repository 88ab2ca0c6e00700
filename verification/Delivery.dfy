/** Delivery results of a bulk campaign: `resolveBulkCampaign`, `mapLookupToStatus` and
    `deriveCampaignStatus`. Provider texts are taken in upper case. */
module Delivery {
  import opened Wrappers
  import opened JsText

  datatype Lookup = Lookup(
    recipientSeq: Option<string>,
    recipientNo: Option<string>,
    providerStatus: string,
    providerMessage: string,
    providerCode: string)

  datatype Recipient = Recipient(id: string, recipientPhone: string, recipientSeq: Option<string>, locallyFailed: bool)

  datatype Status = DELIVERED | DELIVERY_FAILED | SENT_TO_PROVIDER | WAITING | IN_PROGRESS | REQUESTED

  datatype CampaignStatus =
    | CAMPAIGN_IN_PROGRESS | CAMPAIGN_FAILED | CAMPAIGN_DELIVERED
    | CAMPAIGN_PARTIAL_FAILED | CAMPAIGN_SENT_TO_PROVIDER

  datatype Stats = Stats(totalCount: nat, submittedCount: nat, deliveredCount: nat, failedCount: nat, pendingCount: nat)

  // ---------------------------------------------------------- provider status

  predicate Includes(text: string, part: string) {
    StartsWith(text, part) || (text != "" && Includes(text[1..], part))
  }

  predicate IncludesAny(text: string, parts: seq<string>) {
    exists i | 0 <= i < |parts| :: Includes(text, parts[i])
  }

  const FAILURE_WORDS := ["FAIL", "\U{C2E4}\U{D328}", "REJECT", "\U{AC70}\U{BD80}", "CANCEL", "\U{CDE8}\U{C18C}"]
  const SUCCESS_WORDS := ["DELIVER", "SUCCESS", "\U{C131}\U{ACF5}", "COMPLETE", "DONE"]
  const SUCCESS_MESSAGE_WORDS := ["SUCCESS", "\U{C131}\U{ACF5}"]
  const SENT_WORDS := ["SENT", "ACCEPT", "\U{C811}\U{C218}", "REQUEST", "\U{C694}\U{CCAD}", "SUBMIT"]

  predicate IsProviderSuccessCode(code: string) {
    code == "0" || code == "0000" || code == "1000" || code == "MRC01"
  }

  function Magnitude(code: string): string {
    if StartsWith(code, "-") then code[1..] else code
  }

  predicate IsProviderFailureCode(code: string) {
    if code == "" || IsProviderSuccessCode(code) then false
    else if code == "MRC02" || code == "MRC03" || code == "MRC04" then true
    else Magnitude(code) != "" && AllDigits(Magnitude(code)) && NumberOf(Magnitude(code)) >= 1000
  }

  /** `scheduled` tells whether the campaign lies in the future. */
  function MapLookupToStatus(l: Lookup, scheduled: bool): Status {
    if IsProviderFailureCode(l.providerCode) || IncludesAny(l.providerStatus, FAILURE_WORDS)
        || IncludesAny(l.providerMessage, FAILURE_WORDS)
    then DELIVERY_FAILED
    else if IncludesAny(l.providerStatus, SUCCESS_WORDS) || IncludesAny(l.providerMessage, SUCCESS_MESSAGE_WORDS)
        || IsProviderSuccessCode(l.providerCode)
    then DELIVERED
    else if IncludesAny(l.providerStatus, SENT_WORDS) then SENT_TO_PROVIDER
    else if scheduled then WAITING
    else IN_PROGRESS
  }

  function LeadingZeros(s: string): (n: nat)
    ensures n <= |s| && (n < |s| ==> s[n] != '0') && forall i | 0 <= i < n :: s[i] == '0'
  {
    if s == "" || s[0] != '0' then 0 else 1 + LeadingZeros(s[1..])
  }

  lemma {:induction false} FourDigits(s: string)
    requires AllDigits(s)
    ensures NumberOf(s) >= 1000 <==> |s| - LeadingZeros(s) >= 4
    ensures NumberOf(s) >= 100 <==> |s| - LeadingZeros(s) >= 3
    ensures NumberOf(s) >= 10 <==> |s| - LeadingZeros(s) >= 2
    ensures NumberOf(s) >= 1 <==> |s| - LeadingZeros(s) >= 1
  {
    if s != "" {
      var init := s[..|s| - 1];
      FourDigits(init);
      LeadingZerosOfInit(s);
    }
  }

  lemma LeadingZerosOfInit(s: string)
    requires s != ""
    ensures LeadingZeros(s) == if LeadingZeros(s[..|s| - 1]) == |s| - 1
        && s[|s| - 1] == '0' then |s| else LeadingZeros(s[..|s| - 1])
  {
    hide LeadingZeros;
    var init := s[..|s| - 1];
    var n := LeadingZeros(init);
    assert n < |init| ==> s[n] == init[n];
    assert forall i | 0 <= i < n :: s[i] == init[i];
    var m := LeadingZeros(s);
    assert m < |s| ==> forall i | 0 <= i < m && i < |init| :: init[i] == s[i];
  }

  /** A numeric code other than 1000 is a failure exactly when, sign and leading zeros apart,
      it has at least four digits; no code is both a success and a failure. */
  lemma FailureCodes(code: string)
    ensures !(IsProviderSuccessCode(code) && IsProviderFailureCode(code))
    ensures Magnitude(code) != "" && AllDigits(Magnitude(code)) && !IsProviderSuccessCode(code) ==>
              (IsProviderFailureCode(code) <==> |Magnitude(code)| - LeadingZeros(Magnitude(code)) >= 4)
  {
    hide NumberOf, LeadingZeros;
    if AllDigits(Magnitude(code)) {
      FourDigits(Magnitude(code));
      assert code != "MRC02" && code != "MRC03" && code != "MRC04" by { LettersAreNoNumber(code); }
    }
  }

  lemma LettersAreNoNumber(code: string)
    requires AllDigits(Magnitude(code))
    ensures code != "" ==> code[0] != 'M'
  {
    StartsWithAt(code, "-", 0);
    if code != "" && !StartsWith(code, "-") {
      assert IsDigit(Magnitude(code)[0]);
    }
  }

  /** The part stands somewhere in the text. */
  ghost predicate Occurs(part: string, text: string) {
    exists before: string :: before + part <= text
  }

  lemma {:induction false} IncludesIsOccurs(text: string, part: string)
    ensures Includes(text, part) <==> Occurs(part, text)
  {
    if StartsWith(text, part) {
      assert "" + part <= text;
    } else if text != "" {
      IncludesIsOccurs(text[1..], part);
      if Occurs(part, text[1..]) {
        var before :| before + part <= text[1..];
        assert ([text[0]] + before) + part <= text;
      }
      if Occurs(part, text) {
        var before :| before + part <= text;
        assert before == "" ==> before + part == part;
        assert before != "" ==> (before + part)[1..] == before[1..] + part;
      }
    }
  }

  /** A number other than 1000, with or without a minus, that has four or more digits after leading zeros. */
  ghost predicate IsLongNumber(code: string) {
    && code != "1000"
    && exists sign, digits ::
         && code == sign + digits && (sign == "" || sign == "-")
         && AllDigits(digits) && |digits| - LeadingZeros(digits) >= 4
  }

  ghost predicate FailureSign(l: Lookup) {
    || l.providerCode in {"MRC02", "MRC03", "MRC04"}
    || IsLongNumber(l.providerCode)
    || exists w | w in FAILURE_WORDS :: Occurs(w, l.providerStatus) || Occurs(w, l.providerMessage)
  }

  ghost predicate SuccessSign(l: Lookup) {
    || l.providerCode in {"0", "0000", "1000", "MRC01"}
    || (exists w | w in SUCCESS_WORDS :: Occurs(w, l.providerStatus))
    || (exists w | w in SUCCESS_MESSAGE_WORDS :: Occurs(w, l.providerMessage))
  }

  ghost predicate SentSign(l: Lookup) {
    exists w | w in SENT_WORDS :: Occurs(w, l.providerStatus)
  }

  lemma IncludesAnyWord(text: string, words: seq<string>)
    ensures IncludesAny(text, words) <==> exists w | w in words :: Occurs(w, text)
  {
    hide Includes, Occurs;
    forall i | 0 <= i < |words| ensures Includes(text, words[i]) <==> Occurs(words[i], text) {
      IncludesIsOccurs(text, words[i]);
    }
  }

  lemma LongNumbersAre(code: string)
    ensures IsLongNumber(code)
       <==> code != "1000" && AllDigits(Magnitude(code)) && |Magnitude(code)| - LeadingZeros(Magnitude(code)) >= 4
  {
    hide LeadingZeros;
    var sign := if StartsWith(code, "-") then "-" else "";
    assert code == sign + Magnitude(code);
    forall sign: string, digits |
        code == sign + digits && (sign == "" || sign == "-") && AllDigits(digits)
      ensures Magnitude(code) == digits
    {
      if sign == "" {
        StartsWithAt(code, "-", 0);
        assert code == digits;
      } else {
        assert code[..1] == "-" && code[1..] == digits;
      }
    }
  }

  /** A code is a failure exactly when it is one of the failure codes or a long number. */
  lemma FailureCodesAre(code: string)
    ensures IsProviderFailureCode(code) <==> code in {"MRC02", "MRC03", "MRC04"} || IsLongNumber(code)
  {
    hide NumberOf, LeadingZeros, IsLongNumber;
    LongNumbersAre(code);
    FailureCodes(code);
    if AllDigits(Magnitude(code)) { LettersAreNoNumber(code); }
    ShortCodesAreShort();
  }

  lemma ShortCodesAreShort()
    ensures !IsLongNumber("0") && !IsLongNumber("0000") && !IsLongNumber("MRC01") && !IsLongNumber("1000")
    ensures !IsLongNumber("")
  {
    hide IsLongNumber;
    LongNumbersAre("0");
    LongNumbersAre("0000");
    LongNumbersAre("MRC01");
    LongNumbersAre("1000");
    LongNumbersAre("");
    assert "0000"[0] != '-' && "MRC01"[0] != '-';
    assert LeadingZeros("0000") == 4 by {
      assert forall i | 0 <= i < 4 :: "0000"[i] == '0';
    }
    assert !IsDigit("MRC01"[0]);
  }

  /** What the signs in a lookup say: a sign of failure wins over all others, a sign of success
      over the rest. */
  lemma SignsTell(l: Lookup, scheduled: bool)
    ensures MapLookupToStatus(l, scheduled)
         == if FailureSign(l) then DELIVERY_FAILED
            else if SuccessSign(l) then DELIVERED
            else if SentSign(l) then SENT_TO_PROVIDER
            else if scheduled then WAITING
            else IN_PROGRESS
  {
    hide IncludesAny, Occurs, IsProviderFailureCode, IsLongNumber;
    FailureCodesAre(l.providerCode);
    IncludesAnyWord(l.providerStatus, FAILURE_WORDS);
    IncludesAnyWord(l.providerMessage, FAILURE_WORDS);
    IncludesAnyWord(l.providerStatus, SUCCESS_WORDS);
    IncludesAnyWord(l.providerMessage, SUCCESS_MESSAGE_WORDS);
    IncludesAnyWord(l.providerStatus, SENT_WORDS);
  }

  // ------------------------------------------------------------- the indexes

  function SeqKey(l: Lookup): Option<string> {
    if l.recipientSeq.Some? && l.recipientSeq.value != "" then l.recipientSeq else None
  }

  function PhoneKey(l: Lookup): Option<string> {
    if l.recipientNo.Some? && l.recipientNo.value != "" then Some(Digits(l.recipientNo.value)) else None
  }

  /** The last of the first `n` lookups with a key, by linear scan. */
  function LastWith(lookups: seq<Lookup>, n: nat, keyOf: Lookup -> Option<string>, key: string): Option<Lookup>
    requires n <= |lookups|
  {
    if n == 0 then None
    else if keyOf(lookups[n - 1]) == Some(key) then Some(lookups[n - 1])
    else LastWith(lookups, n - 1, keyOf, key)
  }

  /** The lookup of a recipient: by its sequence number, or else by its phone. */
  function LookupOf(r: Recipient, lookups: seq<Lookup>): Option<Lookup> {
    var bySeq := if r.recipientSeq.Some?
      && r.recipientSeq.value != "" then LastWith(lookups, |lookups|, SeqKey, r.recipientSeq.value) else None;
    if bySeq.Some? then bySeq else LastWith(lookups, |lookups|, PhoneKey, Digits(r.recipientPhone))
  }

  /** The index says what the scan says. */
  ghost predicate Indexes(index: map<string, Lookup>, lookups: seq<Lookup>, n: nat, keyOf: Lookup -> Option<string>)
    requires n <= |lookups|
  {
    forall key :: (if key in index then Some(index[key]) else None) == LastWith(lookups, n, keyOf, key)
  }

  lemma IndexStep(index: map<string, Lookup>, lookups: seq<Lookup>, n: nat, keyOf: Lookup -> Option<string>)
    requires n < |lookups| && Indexes(index, lookups, n, keyOf)
    ensures var key := keyOf(lookups[n]);
            Indexes(if key.Some? then index[key.value := lookups[n]] else index, lookups, n + 1, keyOf)
  {}

  predicate DistinctKeys(lookups: seq<Lookup>, keyOf: Lookup -> Option<string>) {
    forall i, j | 0 <= i < j < |lookups| :: keyOf(lookups[i]).Some? ==> keyOf(lookups[i]) != keyOf(lookups[j])
  }

  lemma {:induction false} LastIs(lookups: seq<Lookup>, n: nat, keyOf: Lookup -> Option<string>, key: string)
    requires n <= |lookups|
    ensures match LastWith(lookups, n, keyOf, key)
            case None => forall i | 0 <= i < n :: keyOf(lookups[i]) != Some(key)
            case Some(l) => exists i | 0 <= i < n :: lookups[i] == l && keyOf(l) == Some(key)
                              && forall j | i < j < n :: keyOf(lookups[j]) != Some(key)
  {
    if n > 0 && keyOf(lookups[n - 1]) != Some(key) { LastIs(lookups, n - 1, keyOf, key); }
  }

  lemma NotFoundElsewhere(a: seq<Lookup>, b: seq<Lookup>, keyOf: Lookup -> Option<string>, key: string)
    requires forall l | l in b :: l in a
    requires forall i | 0 <= i < |a| :: keyOf(a[i]) != Some(key)
    ensures forall i | 0 <= i < |b| :: keyOf(b[i]) != Some(key)
  {
    forall i | 0 <= i < |b| ensures keyOf(b[i]) != Some(key) {
      assert b[i] in a;
    }
  }

  lemma SameMembers(a: seq<Lookup>, b: seq<Lookup>)
    requires multiset(a) == multiset(b)
    ensures forall l :: l in a <==> l in b
  {
    assert forall l :: l in a <==> l in multiset(a);
    assert forall l :: l in b <==> l in multiset(b);
  }

  lemma ScanIgnoresOrder(a: seq<Lookup>, b: seq<Lookup>, keyOf: Lookup -> Option<string>, key: string)
    requires forall l :: l in a <==> l in b
    requires DistinctKeys(a, keyOf) && DistinctKeys(b, keyOf)
    ensures LastWith(a, |a|, keyOf, key) == LastWith(b, |b|, keyOf, key)
  {
    hide LastWith;
    LastIs(a, |a|, keyOf, key);
    LastIs(b, |b|, keyOf, key);
    var x := LastWith(a, |a|, keyOf, key);
    if x.None? {
      NotFoundElsewhere(a, b, keyOf, key);
    } else {
      assert x.value in b;
    }
  }

  /** When no two lookups share a key, the order in which they arrive does not matter. */
  lemma LookupIgnoresOrder(r: Recipient, a: seq<Lookup>, b: seq<Lookup>)
    requires multiset(a) == multiset(b)
    requires DistinctKeys(a, SeqKey) && DistinctKeys(b, SeqKey) && DistinctKeys(a, PhoneKey)
        && DistinctKeys(b, PhoneKey)
    ensures LookupOf(r, a) == LookupOf(r, b)
  {
    hide DistinctKeys, LastWith;
    SameMembers(a, b);
    if r.recipientSeq.Some? { ScanIgnoresOrder(a, b, SeqKey, r.recipientSeq.value); }
    ScanIgnoresOrder(a, b, PhoneKey, Digits(r.recipientPhone));
  }

  predicate HasSeqOf(r: Recipient, l: Lookup) {
    r.recipientSeq.Some? && r.recipientSeq.value != "" && l.recipientSeq == r.recipientSeq
  }

  predicate HasPhoneOf(r: Recipient, l: Lookup) {
    l.recipientNo.Some? && l.recipientNo.value != "" && Digits(l.recipientNo.value) == Digits(r.recipientPhone)
  }

  /** The last lookup with a property. */
  ghost predicate IsLast(lookups: seq<Lookup>, l: Lookup, has: Lookup -> bool) {
    exists i | 0 <= i < |lookups| :: lookups[i] == l && has(l) && forall j | i < j < |lookups| :: !has(lookups[j])
  }

  ghost predicate SomeHas(lookups: seq<Lookup>, has: Lookup -> bool) {
    exists i | 0 <= i < |lookups| :: has(lookups[i])
  }

  lemma LastWithIs(lookups: seq<Lookup>, keyOf: Lookup -> Option<string>, key: string, has: Lookup -> bool)
    requires forall l :: has(l) <==> keyOf(l) == Some(key)
    ensures match LastWith(lookups, |lookups|, keyOf, key)
            case Some(l) => IsLast(lookups, l, has) && SomeHas(lookups, has)
            case None => !SomeHas(lookups, has)
  {
    hide LastWith;
    LastIs(lookups, |lookups|, keyOf, key);
  }

  /** A recipient is told by the last lookup that has its sequence number; only if there is none,
      by the last one that has its phone, however written. */
  lemma LookupIsTheLast(r: Recipient, lookups: seq<Lookup>)
    ensures match LookupOf(r, lookups)
            case Some(l) =>
              if SomeHas(lookups, x => HasSeqOf(r, x)) then IsLast(lookups, l, x => HasSeqOf(r, x))
              else IsLast(lookups, l, x => HasPhoneOf(r, x))
            case None => !SomeHas(lookups, x => HasSeqOf(r, x)) && !SomeHas(lookups, x => HasPhoneOf(r, x))
  {
    hide LastWith, Digits, IsLast;
    if r.recipientSeq.Some? && r.recipientSeq.value != "" {
      LastWithIs(lookups, SeqKey, r.recipientSeq.value, x => HasSeqOf(r, x));
    }
    LastWithIs(lookups, PhoneKey, Digits(r.recipientPhone), x => HasPhoneOf(r, x));
  }

  // -------------------------------------------------------------- the counters

  datatype Kind = Submitted | Delivered | Failed | Pending

  function KindOfStatus(s: Status): Kind {
    match s
    case DELIVERED => Delivered
    case DELIVERY_FAILED => Failed
    case SENT_TO_PROVIDER => Submitted
    case _ => Pending
  }

  /** How a recipient is counted. */
  function KindOf(r: Recipient, lookups: seq<Lookup>, scheduled: bool): Kind {
    match LookupOf(r, lookups)
    case None => Pending
    case Some(l) => KindOfStatus(MapLookupToStatus(l, scheduled))
  }

  /** What is shown for a recipient. */
  function ShownStatus(r: Recipient, lookups: seq<Lookup>, scheduled: bool): Status {
    match LookupOf(r, lookups)
    case None => if r.locallyFailed then DELIVERY_FAILED else if scheduled then WAITING else REQUESTED
    case Some(l) => MapLookupToStatus(l, scheduled)
  }

  /** The lookup of the recipient has a sign of failure. */
  ghost predicate FoundFailed(r: Recipient, lookups: seq<Lookup>) {
    match LookupOf(r, lookups)
    case None => false
    case Some(l) => FailureSign(l)
  }

  /** The lookup of the recipient has a sign of success and none of failure. */
  ghost predicate FoundDelivered(r: Recipient, lookups: seq<Lookup>) {
    match LookupOf(r, lookups)
    case None => false
    case Some(l) => SuccessSign(l) && !FailureSign(l)
  }

  /** The lookup of the recipient only has a sign of having been sent. */
  ghost predicate FoundSent(r: Recipient, lookups: seq<Lookup>) {
    match LookupOf(r, lookups)
    case None => false
    case Some(l) => SentSign(l) && !SuccessSign(l) && !FailureSign(l)
  }

  /** How a recipient is counted and shown, by the signs in its lookup. */
  lemma RecipientIsTold(r: Recipient, lookups: seq<Lookup>, scheduled: bool)
    ensures KindOf(r, lookups, scheduled) == Failed <==> FoundFailed(r, lookups)
    ensures KindOf(r, lookups, scheduled) == Delivered <==> FoundDelivered(r, lookups)
    ensures KindOf(r, lookups, scheduled) == Submitted <==> FoundSent(r, lookups)
    ensures var unfound := LookupOf(r, lookups).None?;
            ShownStatus(r, lookups, scheduled)
              == if FoundFailed(r, lookups) || (unfound && r.locallyFailed) then DELIVERY_FAILED
                 else if FoundDelivered(r, lookups) then DELIVERED
                 else if FoundSent(r, lookups) then SENT_TO_PROVIDER
                 else if scheduled then WAITING
                 else if unfound then REQUESTED
                 else IN_PROGRESS
  {
    hide LookupOf, MapLookupToStatus, FailureSign, SuccessSign, SentSign;
    var l := LookupOf(r, lookups);
    if l.Some? { SignsTell(l.value, scheduled); }
  }

  function Kinds(recipients: seq<Recipient>, lookups: seq<Lookup>, scheduled: bool): (kinds: seq<Kind>)
    ensures |kinds| == |recipients|
    ensures forall i | 0 <= i < |kinds| :: kinds[i] == KindOf(recipients[i], lookups, scheduled)
  {
    seq(|recipients|, i requires 0 <= i < |recipients| => KindOf(recipients[i], lookups, scheduled))
  }

  function Count(kinds: seq<Kind>, kind: Kind): nat {
    if kinds == [] then 0
    else Count(kinds[..|kinds| - 1], kind) + (if kinds[|kinds| - 1] == kind then 1 else 0)
  }

  lemma {:induction false} CountsAddUp(kinds: seq<Kind>)
    ensures Count(kinds, Submitted) + Count(kinds, Delivered) + Count(kinds, Failed) + Count(kinds, Pending) == |kinds|
  {
    if kinds != [] { CountsAddUp(kinds[..|kinds| - 1]); }
  }

  predicate Every(kinds: seq<Kind>, kind: Kind) {
    forall i | 0 <= i < |kinds| :: kinds[i] == kind
  }

  predicate AtLeastOne(kinds: seq<Kind>, kind: Kind) {
    exists i | 0 <= i < |kinds| :: kinds[i] == kind
  }

  lemma KindsStep(kinds: seq<Kind>, kind: Kind)
    requires kinds != []
    ensures var n := |kinds| - 1;
            && (Every(kinds, kind) <==> Every(kinds[..n], kind) && kinds[n] == kind)
            && (AtLeastOne(kinds, kind) <==> AtLeastOne(kinds[..n], kind) || kinds[n] == kind)
  {
    var n := |kinds| - 1;
    var init := kinds[..n];
    assert forall i | 0 <= i < n :: init[i] == kinds[i];
  }

  lemma {:induction false} CountTells(kinds: seq<Kind>, kind: Kind)
    ensures Count(kinds, kind) <= |kinds|
    ensures Count(kinds, kind) == |kinds| <==> Every(kinds, kind)
    ensures Count(kinds, kind) > 0 <==> AtLeastOne(kinds, kind)
  {
    if kinds != [] {
      hide Every, AtLeastOne;
      CountTells(kinds[..|kinds| - 1], kind);
      KindsStep(kinds, kind);
    }
  }

  function DeriveCampaignStatus(s: Stats): CampaignStatus {
    if s.totalCount <= 0 then CAMPAIGN_IN_PROGRESS
    else if s.failedCount >= s.totalCount then CAMPAIGN_FAILED
    else if s.deliveredCount >= s.totalCount then CAMPAIGN_DELIVERED
    else if s.failedCount > 0 then CAMPAIGN_PARTIAL_FAILED
    else if s.submittedCount > 0 then CAMPAIGN_SENT_TO_PROVIDER
    else if s.pendingCount > 0 then CAMPAIGN_IN_PROGRESS
    else CAMPAIGN_IN_PROGRESS
  }

  // --------------------------------------------------------- what they tell

  function StatsOf(kinds: seq<Kind>): Stats {
    Stats(|kinds|, Count(kinds, Submitted), Count(kinds, Delivered), Count(kinds, Failed), Count(kinds, Pending))
  }

  /** With as many recipients as the campaign counts, every recipient is in exactly one of the
      four counts, and the status says exactly what the recipients are like; the final
      fall-through of the decision is never reached. */
  lemma StatusIsExact(kinds: seq<Kind>)
    requires kinds != []
    ensures var s := StatsOf(kinds);
            var status := DeriveCampaignStatus(s);
            && s.submittedCount + s.deliveredCount + s.failedCount + s.pendingCount == s.totalCount
            && (status == CAMPAIGN_DELIVERED <==> Every(kinds, Delivered))
            && (status == CAMPAIGN_FAILED <==> Every(kinds, Failed))
            && (status == CAMPAIGN_PARTIAL_FAILED <==> AtLeastOne(kinds, Failed) && !Every(kinds, Failed))
            && (status == CAMPAIGN_SENT_TO_PROVIDER <==> !AtLeastOne(kinds, Failed) && AtLeastOne(kinds, Submitted))
            && (status == CAMPAIGN_IN_PROGRESS
               <==> !AtLeastOne(kinds, Failed) && !AtLeastOne(kinds, Submitted) && AtLeastOne(kinds, Pending))
  {
    CountsAddUp(kinds);
    CountTells(kinds, Submitted);
    CountTells(kinds, Delivered);
    CountTells(kinds, Failed);
    CountTells(kinds, Pending);
    assert kinds[0] in {Submitted, Delivered, Failed, Pending};
  }

  ghost predicate SomeFailed(recipients: seq<Recipient>, lookups: seq<Lookup>) {
    exists i | 0 <= i < |recipients| :: FoundFailed(recipients[i], lookups)
  }

  ghost predicate SomeSent(recipients: seq<Recipient>, lookups: seq<Lookup>) {
    exists i | 0 <= i < |recipients| :: FoundSent(recipients[i], lookups)
  }

  /** What the recipients make of the campaign. */
  ghost function StatusTold(recipients: seq<Recipient>, lookups: seq<Lookup>): CampaignStatus {
    if recipients == [] then CAMPAIGN_IN_PROGRESS
    else if forall i | 0 <= i < |recipients| :: FoundFailed(recipients[i], lookups) then CAMPAIGN_FAILED
    else if forall i | 0 <= i < |recipients| :: FoundDelivered(recipients[i], lookups) then CAMPAIGN_DELIVERED
    else if SomeFailed(recipients, lookups) then CAMPAIGN_PARTIAL_FAILED
    else if SomeSent(recipients, lookups) then CAMPAIGN_SENT_TO_PROVIDER
    else CAMPAIGN_IN_PROGRESS
  }

  /** A campaign is delivered exactly when every recipient is found delivered, failed exactly when
      every one is found failed, and otherwise partly failed as soon as one is, or else sent as
      soon as one is; a campaign without recipients is in progress. */
  lemma CampaignIsTold(recipients: seq<Recipient>, lookups: seq<Lookup>, scheduled: bool)
    ensures DeriveCampaignStatus(StatsOf(Kinds(recipients, lookups, scheduled)))
         == StatusTold(recipients, lookups)
  {
    hide KindOf, ShownStatus, FoundDelivered, FoundFailed, FoundSent, LookupOf, DeriveCampaignStatus, StatsOf;
    hide AtLeastOne, Every;
    var kinds := Kinds(recipients, lookups, scheduled);
    forall i | 0 <= i < |recipients|
      ensures kinds[i] == Delivered <==> FoundDelivered(recipients[i], lookups)
      ensures kinds[i] == Failed <==> FoundFailed(recipients[i], lookups)
      ensures kinds[i] == Submitted <==> FoundSent(recipients[i], lookups)
    {
      RecipientIsTold(recipients[i], lookups, scheduled);
    }
    KindsTell(kinds, Delivered);
    KindsTell(kinds, Failed);
    KindsTell(kinds, Submitted);
    if recipients == [] {
      NobodyIsInProgress(kinds);
    } else {
      StatusIsExact(kinds);
    }
  }

  lemma KindsTell(kinds: seq<Kind>, kind: Kind)
    ensures Every(kinds, kind) <==> forall i | 0 <= i < |kinds| :: kinds[i] == kind
    ensures AtLeastOne(kinds, kind) <==> exists i | 0 <= i < |kinds| :: kinds[i] == kind
  {}

  lemma NobodyIsInProgress(kinds: seq<Kind>)
    requires kinds == []
    ensures DeriveCampaignStatus(StatsOf(kinds)) == CAMPAIGN_IN_PROGRESS
  {}

  method ResolveBulkCampaign(recipients: seq<Recipient>, lookups: seq<Lookup>, totalRecipientCount: nat,
                             scheduled: bool)
    returns (status: CampaignStatus, stats: Stats, resolved: map<string, Status>)
    requires forall i, j | 0 <= i < j < |recipients| :: recipients[i].id != recipients[j].id
    ensures stats.totalCount == totalRecipientCount && status == DeriveCampaignStatus(stats)
    ensures var kinds := Kinds(recipients, lookups, scheduled);
            && stats.submittedCount == Count(kinds, Submitted)
            && stats.deliveredCount == Count(kinds, Delivered)
            && stats.failedCount == Count(kinds, Failed)
            && stats.pendingCount == Count(kinds, Pending)
    ensures forall id :: id in resolved <==> exists i | 0 <= i < |recipients| :: recipients[i].id == id
    ensures forall i | 0 <= i < |recipients| ::
              recipients[i].id in resolved
                && resolved[recipients[i].id] == ShownStatus(recipients[i], lookups, scheduled)
    ensures totalRecipientCount == |recipients| ==> status == StatusTold(recipients, lookups)
  {
    hide LastWith, MapLookupToStatus, Digits, Indexes, Count, LookupOf, FindLookup, StatusTold;
    var bySeq: map<string, Lookup> := map[];
    var byPhone: map<string, Lookup> := map[];
    EmptyIndexes(lookups);
    for k := 0 to |lookups|
      invariant Indexes(bySeq, lookups, k, SeqKey)
      invariant Indexes(byPhone, lookups, k, PhoneKey)
    {
      var lookup := lookups[k];
      IndexStep(bySeq, lookups, k, SeqKey);
      IndexStep(byPhone, lookups, k, PhoneKey);
      if lookup.recipientSeq.Some? && lookup.recipientSeq.value != "" {
        bySeq := bySeq[lookup.recipientSeq.value := lookup];
      }
      if lookup.recipientNo.Some? && lookup.recipientNo.value != "" {
        byPhone := byPhone[Digits(lookup.recipientNo.value) := lookup];
      }
    }
    ghost var kinds := Kinds(recipients, lookups, scheduled);
    NothingCounted();
    resolved := map[];
    var submittedCount, deliveredCount, failedCount, pendingCount := 0, 0, 0, 0;
    for k := 0 to |recipients|
      invariant submittedCount == Count(kinds[..k], Submitted)
      invariant deliveredCount == Count(kinds[..k], Delivered)
      invariant failedCount == Count(kinds[..k], Failed)
      invariant pendingCount == Count(kinds[..k], Pending)
      invariant forall id :: id in resolved <==> exists i | 0 <= i < k :: recipients[i].id == id
      invariant forall i | 0 <= i < k ::
                  recipients[i].id in resolved
                    && resolved[recipients[i].id] == ShownStatus(recipients[i], lookups, scheduled)
    {
      var recipient := recipients[k];
      CountStep(kinds, k);
      var lookup := FindLookup(bySeq, byPhone, recipient);
      FoundIsScanned(bySeq, byPhone, recipient, lookups);
      match lookup
      case None =>
        pendingCount := pendingCount + 1;
        resolved := resolved[recipient.id := if recipient.locallyFailed then DELIVERY_FAILED
          else if scheduled then WAITING else REQUESTED];
      case Some(l) =>
        var s := MapLookupToStatus(l, scheduled);
        if s == DELIVERED {
          deliveredCount := deliveredCount + 1;
        } else if s == DELIVERY_FAILED {
          failedCount := failedCount + 1;
        } else if s == SENT_TO_PROVIDER {
          submittedCount := submittedCount + 1;
        } else {
          pendingCount := pendingCount + 1;
        }
        resolved := resolved[recipient.id := s];
    }
    assert kinds[..|recipients|] == kinds;
    stats := Stats(totalRecipientCount, submittedCount, deliveredCount, failedCount, pendingCount);
    status := DeriveCampaignStatus(stats);
    if totalRecipientCount == |recipients| { CampaignIsTold(recipients, lookups, scheduled); }
  }

  function FindLookup(bySeq: map<string, Lookup>, byPhone: map<string, Lookup>, r: Recipient): Option<Lookup> {
    if r.recipientSeq.Some? && r.recipientSeq.value != ""
        && r.recipientSeq.value in bySeq then Some(bySeq[r.recipientSeq.value])
    else if Digits(r.recipientPhone) in byPhone then Some(byPhone[Digits(r.recipientPhone)])
    else None
  }

  lemma FoundIsScanned(bySeq: map<string, Lookup>, byPhone: map<string, Lookup>, r: Recipient, lookups: seq<Lookup>)
    requires Indexes(bySeq, lookups, |lookups|, SeqKey) && Indexes(byPhone, lookups, |lookups|, PhoneKey)
    ensures FindLookup(bySeq, byPhone, r) == LookupOf(r, lookups)
  {
    hide LastWith, Digits;
  }

  lemma EmptyIndexes(lookups: seq<Lookup>)
    ensures Indexes(map[], lookups, 0, SeqKey) && Indexes(map[], lookups, 0, PhoneKey)
  {}

  lemma NothingCounted()
    ensures forall kind :: Count([], kind) == 0
  {}

  lemma CountStep(kinds: seq<Kind>, k: nat)
    requires k < |kinds|
    ensures forall kind :: Count(kinds[..k + 1], kind) == Count(kinds[..k], kind) + (if kinds[k] == kind then 1 else 0)
  {
    assert kinds[..k + 1][..k] == kinds[..k];
  }

  predicate FailedWithoutLookup(r: Recipient, lookups: seq<Lookup>) {
    r.locallyFailed && LookupOf(r, lookups).None?
  }

  function ShownKinds(recipients: seq<Recipient>, lookups: seq<Lookup>, scheduled: bool): (kinds: seq<Kind>)
    ensures |kinds| == |recipients|
    ensures forall i | 0 <= i < |kinds| :: kinds[i] == KindOfStatus(ShownStatus(recipients[i], lookups, scheduled))
  {
    seq(|recipients|, i requires 0 <= i < |recipients| => KindOfStatus(ShownStatus(recipients[i], lookups, scheduled)))
  }

  lemma {:induction false} FewerFailed(counted: seq<Kind>, shown: seq<Kind>)
    requires |counted| == |shown|
    requires forall i | 0 <= i < |counted| :: counted[i] == Failed ==> shown[i] == Failed
    ensures Count(counted, Failed) <= Count(shown, Failed)
    ensures Count(counted, Failed) == Count(shown, Failed)
       <==> forall i | 0 <= i < |counted| :: shown[i] == Failed ==> counted[i] == Failed
  {
    if counted != [] {
      var n := |counted| - 1;
      var c, s := counted[..n], shown[..n];
      FewerFailed(c, s);
      assert forall i | 0 <= i < n :: counted[i] == c[i] && shown[i] == s[i];
      assert counted == c + [counted[n]] && shown == s + [shown[n]];
    }
  }

  /** A recipient that failed locally and has no lookup is shown as failed but counted as
      pending, so the failed count is the number of recipients shown as failed exactly when
      there is no such recipient. */
  lemma FailedCountIsShownIff(recipients: seq<Recipient>, lookups: seq<Lookup>, scheduled: bool)
    ensures Count(Kinds(recipients, lookups, scheduled), Failed)
        == Count(ShownKinds(recipients, lookups, scheduled), Failed)
       <==> forall i | 0 <= i < |recipients| :: !FailedWithoutLookup(recipients[i], lookups)
  {
    hide LookupOf, MapLookupToStatus, Count;
    var counted, shown := Kinds(recipients, lookups, scheduled), ShownKinds(recipients, lookups, scheduled);
    forall i | 0 <= i < |recipients|
      ensures counted[i] == Failed ==> shown[i] == Failed
      ensures shown[i] == Failed && counted[i] != Failed <==> FailedWithoutLookup(recipients[i], lookups)
    {}
    FewerFailed(counted, shown);
  }
}
