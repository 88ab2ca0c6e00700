/** The SMS ledger over every run: it stays within the limits, it matches what was
    accepted, and its statistics are ordered. */
module SmsQuota {
  import opened Wrappers
  import opened Calendar
  import opened MessageRun
  import opened Schedules
  import opened Store
  import opened StoreRuns

  // ------------------------------------------------------------ ledger sums

  lemma UsedAppend(ledger: seq<LedgerRow>, row: LedgerRow, owner: string, w: Window)
    ensures Used(ledger + [row], owner, w)
         == Used(ledger, owner, w) + (if row.owner == owner && w.Has(row.usageAt) then row.quantity else 0)
  {
    assert (ledger + [row])[..|ledger|] == ledger;
  }

  lemma TotalAppend(ledger: seq<LedgerRow>, row: LedgerRow, owner: string)
    ensures TotalUsed(ledger + [row], owner)
        == TotalUsed(ledger, owner) + (if row.owner == owner then row.quantity else 0)
  {
    assert (ledger + [row])[..|ledger|] == ledger;
  }

  /** A window that lies within another one has no more usage. */
  lemma {:induction false} UsedIsMonotone(ledger: seq<LedgerRow>, owner: string, inner: Window, outer: Window)
    requires outer.start <= inner.start && inner.end <= outer.end
    ensures Used(ledger, owner, inner) <= Used(ledger, owner, outer) <= TotalUsed(ledger, owner)
  {
    if ledger != [] { UsedIsMonotone(ledger[..|ledger| - 1], owner, inner, outer); }
  }

  /** The statistics of a ledger are ordered: daily, monthly, lifetime. */
  lemma UsageStatsAreOrdered(ledger: seq<LedgerRow>, owner: string, t: int)
    requires KstDate(t).year >= 100
    ensures Used(ledger, owner, GetKstDayWindow(t)) <= Used(ledger, owner, GetKstMonthWindow(t)) <= TotalUsed(ledger,
        owner)
  {
    hide GetKstDayWindow, GetKstMonthWindow;
    DayWindowsTileMonth(t);
    UsedIsMonotone(ledger, owner, GetKstDayWindow(t), GetKstMonthWindow(t));
  }

  // ------------------------------------------------------------- the limits

  /** The usage of the KST month of `t`. */
  function MonthlyUsed(db: Db, owner: string, t: int): nat {
    Used(db.ledger, owner, GetKstMonthWindow(t))
  }

  /** The largest limit an owner has had up to now. */
  function PeakLimit(db: Db, actions: seq<Action>, owner: string): nat {
    var now := After(db, actions);
    var limit := if owner in now.users then LimitOf(now, owner) else 0;
    if actions == [] then limit
    else
      var earlier := PeakLimit(db, actions[..|actions| - 1], owner);
      if limit > earlier then limit else earlier
  }

  /** The clock readings of an action: years from 100 on, and for `create` of an SMS both
      readings in one KST month. */
  predicate ClocksAgree(a: Action) {
    match a
    case CreateAction(e) =>
      InTime(e.schedule, e.now) && e.refusal.None? && e.channel == SMS ==>
        && SameKstMonth(CheckInstant(e), UsageInstant(e))
        && KstDate(CheckInstant(e)).year >= 100
    case ManualSmsAction(_, _, _, usageAt, _) => KstDate(usageAt).year >= 100
    case BulkSmsAction(_, _, usageAt) => KstDate(usageAt).year >= 100
    case _ => true
  }

  /** Appending a reservation that was checked keeps every month within any bound on the limit. */
  lemma ReservationStaysWithin(ledger: seq<LedgerRow>, row: LedgerRow, checkedAt: int, bound: nat, owner: string,
                               t: int)
    requires KstDate(t).year >= 100 && KstDate(checkedAt).year >= 100 && SameKstMonth(checkedAt, row.usageAt)
    requires Used(ledger, owner, GetKstMonthWindow(t)) <= bound
    requires row.owner == owner ==> Used(ledger, owner, GetKstMonthWindow(checkedAt)) + row.quantity <= bound
    ensures Used(ledger + [row], owner, GetKstMonthWindow(t)) <= bound
  {
    hide GetKstMonthWindow, Used, KstDate;
    UsedAppend(ledger, row, owner, GetKstMonthWindow(t));
    WindowsPartition(t, row.usageAt);
    WindowsPartition(t, checkedAt);
  }

  lemma CreateStaysWithin(db: Db, e: EventInput, bound: nat, owner: string, t: int)
    requires ClocksAgree(CreateAction(e)) && KstDate(t).year >= 100
    requires owner in db.users ==> LimitOf(db, owner) <= bound
    requires MonthlyUsed(db, owner, t) <= bound
    ensures MonthlyUsed(Create(db, e).0, owner, t) <= bound
  {
    hide GetKstMonthWindow, KstDate, FindByKey, Used;
    if InTime(e.schedule, e.now) && FindByKey(db.requests, e.owner, e.key).None? && e.refusal.None? && e.channel == SMS
       && AssertCanReserve(db, e.owner, 1, CheckInstant(e)).None? {
      var row := LedgerRow(e.owner, 1, UsageInstant(e), ForRequest(|db.requests|));
      ReservationStaysWithin(db.ledger, row, CheckInstant(e), bound, owner, t);
    }
  }

  /** The ledger rows of a manual batch, from `index` on. */
  function ManualLedger(owner: string, count: nat, firstId: nat, usageAt: int): seq<LedgerRow> {
    if count == 0 then []
    else [LedgerRow(owner, 1, usageAt, ForRequest(firstId))] + ManualLedger(owner, count - 1, firstId + 1, usageAt)
  }

  lemma {:induction false} InsertedLedger(db: Db, owner: string, batchId: string, phones: seq<string>, index: nat,
                                          usageAt: int)
    requires index <= |phones|
    ensures match InsertManualSms(db, owner, batchId, phones, index, usageAt)
            case None => true
            case Some(r) => r.ledger == db.ledger + ManualLedger(owner, |phones| - index, |db.requests|, usageAt)
    decreases |phones| - index
  {
    if index < |phones| && FindByKey(db.requests, owner, BatchKey(batchId, index)).None? {
      var inserted := Insert(db,
        Request(owner, BatchKey(batchId, index), "MANUAL_SMS_SEND", phones[index], SMS, None, NEW_RUN));
      var row := LedgerRow(owner, 1, usageAt, ForRequest(|db.requests|));
      InsertedLedger(Reserve(inserted, row), owner, batchId, phones, index + 1, usageAt);
      var rest := ManualLedger(owner, |phones| - index - 1, |db.requests| + 1, usageAt);
      assert (db.ledger + [row]) + rest == db.ledger + ([row] + rest);
    }
  }

  lemma {:induction false} ManualLedgerSums(ledger: seq<LedgerRow>, owner: string, count: nat, firstId: nat,
                                            usageAt: int, o: string, w: Window)
    ensures Used(ledger + ManualLedger(owner, count, firstId, usageAt), o, w)
         == Used(ledger, o, w) + (if owner == o && w.Has(usageAt) then count else 0)
    ensures TotalUsed(ledger + ManualLedger(owner, count, firstId, usageAt), o)
         == TotalUsed(ledger, o) + (if owner == o then count else 0)
    decreases count
  {
    hide Used, TotalUsed;
    if count == 0 {
      assert ledger + ManualLedger(owner, count, firstId, usageAt) == ledger;
    } else {
      var row := LedgerRow(owner, 1, usageAt, ForRequest(firstId));
      var rest := ManualLedger(owner, count - 1, firstId + 1, usageAt);
      assert ledger + ([row] + rest) == (ledger + [row]) + rest;
      ManualLedgerSums(ledger + [row], owner, count - 1, firstId + 1, usageAt, o, w);
      UsedAppend(ledger, row, o, w);
      TotalAppend(ledger, row, o);
    }
  }

  /** A manual batch either leaves the ledger alone or adds one row per recipient. */
  lemma ManualSmsLedger(db: Db, owner: string, batchId: string, phones: seq<string>, usageAt: int, queued: nat)
    ensures var (after, reply) := CreateManualSms(db, owner, batchId, phones, usageAt, queued);
            if !reply.Rejected? then
              && AssertCanReserve(db, owner, |phones|, usageAt).None?
              && after.ledger == db.ledger + ManualLedger(owner, |phones|, |db.requests|, usageAt)
              && |after.requests| == |db.requests| + |phones|
            else after == db
  {
    hide AssertCanReserve;
    if phones != [] && AssertCanReserve(db, owner, |phones|, usageAt).None? {
      InsertedLedger(db, owner, batchId, phones, 0, usageAt);
      match InsertManualSms(db, owner, batchId, phones, 0, usageAt)
      case None =>
      case Some(committed) =>
        EnqueuedFrom(committed, |db.requests|, |db.requests| + (if queued < |phones| then queued else |phones|));
    }
  }

  lemma ManualSmsStaysWithin(db: Db, owner: string, batchId: string, phones: seq<string>, usageAt: int, queued: nat,
                             bound: nat, o: string, t: int)
    requires KstDate(usageAt).year >= 100 && KstDate(t).year >= 100
    requires o in db.users ==> LimitOf(db, o) <= bound
    requires MonthlyUsed(db, o, t) <= bound
    ensures MonthlyUsed(CreateManualSms(db, owner, batchId, phones, usageAt, queued).0, o, t) <= bound
  {
    hide GetKstMonthWindow, KstDate, Used, CreateManualSms;
    ManualSmsLedger(db, owner, batchId, phones, usageAt, queued);
    if !CreateManualSms(db, owner, batchId, phones, usageAt, queued).1.Rejected? {
      ManualLedgerSums(db.ledger, owner, |phones|, |db.requests|, usageAt, o, GetKstMonthWindow(t));
      WindowsPartition(t, usageAt);
    }
  }

  lemma BulkSmsStaysWithin(db: Db, owner: string, recipients: nat, usageAt: int, bound: nat, o: string, t: int)
    requires KstDate(usageAt).year >= 100 && KstDate(t).year >= 100
    requires o in db.users ==> LimitOf(db, o) <= bound
    requires MonthlyUsed(db, o, t) <= bound
    ensures MonthlyUsed(CreateBulkSms(db, owner, recipients, usageAt).0, o, t) <= bound
  {
    hide GetKstMonthWindow, KstDate, Used;
    if recipients > 0 && AssertCanReserve(db, owner, recipients, usageAt).None? {
      var row := LedgerRow(owner, recipients, usageAt, ForCampaign(|db.campaigns|));
      ReservationStaysWithin(db.ledger, row, usageAt, bound, o, t);
    }
  }

  /** A campaign is accepted exactly when it has recipients, its account is known and it still fits
      the month, and then it is accounted in full, in that month only: the whole limit can be
      used and not one message more. */
  lemma BulkSmsAcceptedIff(db: Db, owner: string, recipients: nat, usageAt: int, t: int)
    requires KstDate(usageAt).year >= 100 && KstDate(t).year >= 100
    ensures var (after, reply) := CreateBulkSms(db, owner, recipients, usageAt);
            && (if recipients == 0 then reply == Rejected(NoRecipients)
                else if owner !in db.users then reply == Rejected(NotFound)
                else if MonthlyUsed(db, owner, usageAt) + recipients > LimitOf(db, owner) then
                  reply == Rejected(QuotaExceeded)
                else reply == Ok(|db.campaigns|))
            && (reply.Rejected? ==> after == db)
            && (reply.Ok? ==>
                  && after.campaigns == db.campaigns + [Campaign(owner, recipients)]
                  && after.users == db.users && after.requests == db.requests)
            && (MonthlyUsed(after, owner, t)
                == MonthlyUsed(db, owner, t) + (if reply.Ok? && SameKstMonth(t, usageAt) then recipients else 0))
  {
    hide GetKstMonthWindow, KstDate, Used;
    UsedAppend(db.ledger, LedgerRow(owner, recipients, usageAt, ForCampaign(|db.campaigns|)), owner,
      GetKstMonthWindow(t));
    WindowsPartition(t, usageAt);
  }

  /** The same for an SMS that `create` is asked for under a new key. It is stored and accounted
      exactly when schedule, rule and month allow it, also if the queue then does not take its job. */
  lemma CreateAcceptedIff(db: Db, e: EventInput, t: int)
    requires e.owner in db.users && e.channel == SMS && FindByKey(db.requests, e.owner, e.key).None?
    requires KstDate(UsageInstant(e)).year >= 100 && KstDate(t).year >= 100
    ensures var (after, reply) := Create(db, e);
            var stored :=
              && InTime(e.schedule, e.now) && e.refusal.None?
              && MonthlyUsed(db, e.owner, CheckInstant(e)) + 1 <= LimitOf(db, e.owner);
            && (reply.Ok? <==> stored && e.queued)
            && (reply.NotQueued? <==> stored && !e.queued)
            && |after.requests| == |db.requests| + (if stored then 1 else 0)
            && (MonthlyUsed(after, e.owner, t)
                == MonthlyUsed(db, e.owner, t) + (if stored && SameKstMonth(t, UsageInstant(e)) then 1 else 0))
  {
    hide GetKstMonthWindow, KstDate, Used, FindByKey;
    UsedAppend(db.ledger, LedgerRow(e.owner, 1, UsageInstant(e), ForRequest(|db.requests|)), e.owner,
      GetKstMonthWindow(t));
    WindowsPartition(t, UsageInstant(e));
  }

  lemma StepStaysWithin(db: Db, a: Action, bound: nat, owner: string, t: int)
    requires ClocksAgree(a) && KstDate(t).year >= 100
    requires owner in db.users ==> LimitOf(db, owner) <= bound
    requires MonthlyUsed(db, owner, t) <= bound
    ensures MonthlyUsed(Next(db, a), owner, t) <= bound
  {
    hide GetKstMonthWindow, KstDate, Create, CreateManualSms, CreateBulkSms, FindByKey, LatestRetry, Attempt;
    hide Environment;
    match a
    case CreateAction(e) => CreateStaysWithin(db, e, bound, owner, t);
    case ManualSmsAction(o, batchId, phones, usageAt, queued) =>
      ManualSmsStaysWithin(db, o, batchId, phones, usageAt, queued, bound, owner, t);
    case BulkSmsAction(o, recipients, usageAt) => BulkSmsStaysWithin(db, o, recipients, usageAt, bound, owner, t);
    case _ => LedgerIsKept(db, a);
  }

  lemma LedgerIsKept(db: Db, a: Action)
    requires !a.CreateAction? && !a.ManualSmsAction? && !a.BulkSmsAction?
    ensures Next(db, a).ledger == db.ledger && Next(db, a).campaigns == db.campaigns
  {
    hide FindByKey, LatestRetry, Attempt, Environment;
  }

  /** Over every run of transactions and limit updates, an owner's usage in any KST month
      never exceeds the largest limit that has ever been in force for the owner. */
  lemma {:induction false} UsageNeverExceedsPeakLimit(db: Db, actions: seq<Action>, owner: string, t: int)
    requires Initial(db) && KstDate(t).year >= 100
    requires forall k | 0 <= k < |actions| :: ClocksAgree(actions[k])
    ensures MonthlyUsed(After(db, actions), owner, t) <= PeakLimit(db, actions, owner)
  {
    hide Next, GetKstMonthWindow, KstDate, ClocksAgree;
    if actions != [] {
      var n := |actions| - 1;
      var before := After(db, actions[..n]);
      UsageNeverExceedsPeakLimit(db, actions[..n], owner, t);
      PeakCoversLimit(db, actions[..n], owner);
      StepStaysWithin(before, actions[n], PeakLimit(db, actions[..n], owner), owner, t);
    }
  }

  lemma PeakCoversLimit(db: Db, actions: seq<Action>, owner: string)
    ensures owner in After(db, actions).users ==> LimitOf(After(db, actions), owner) <= PeakLimit(db, actions, owner)
  {
    hide After;
  }

  /** A limit that is set is the limit from then on, for this owner only; an unknown account
      changes nothing. */
  lemma LimitIsSet(db: Db, owner: string, limit: nat, other: string)
    ensures var (after, reply) := SetLimit(db, owner, limit);
            && after == db.(users := after.users) && after.users.Keys == db.users.Keys
            && (reply.Ok? <==> owner in db.users)
            && (reply.Ok? ==> reply.value == limit == LimitOf(after, owner))
            && (other in db.users && other != owner ==> LimitOf(after, other) == LimitOf(db, other))
            && (reply.Rejected? ==> reply.failure == NotFound)
  {}

  // ------------------------------------------- the two clock readings of create

  /** Every owner is within the current limit in every month. */
  ghost predicate WithinLimits(db: Db) {
    forall owner, t | owner in db.users && KstDate(t).year >= 100 ::
      MonthlyUsed(db, owner, t) <= LimitOf(db, owner)
  }

  ghost predicate KeepsLimits(e: EventInput) {
    forall db: Db | WithinLimits(db) :: WithinLimits(Create(db, e).0)
  }

  /** `create` of an SMS keeps every store within its limits exactly when its schedule or its
      rule is refused or the instant it checks and the instant it records fall in the same KST month. */
  lemma CreateIsSafeIffMonthsAgree(e: EventInput)
    requires e.channel == SMS && KstDate(CheckInstant(e)).year >= 100 && KstDate(UsageInstant(e)).year >= 100
    ensures KeepsLimits(e)
       <==> !InTime(e.schedule, e.now) || e.refusal.Some? || SameKstMonth(CheckInstant(e), UsageInstant(e))
  {
    hide GetKstMonthWindow, KstDate, Create, FindByKey;
    if !InTime(e.schedule, e.now) || e.refusal.Some? || SameKstMonth(CheckInstant(e), UsageInstant(e)) {
      forall db: Db | WithinLimits(db) ensures WithinLimits(Create(db, e).0) {
        forall owner, t | owner in db.users && KstDate(t).year >= 100
          ensures MonthlyUsed(Create(db, e).0, owner, t) <= LimitOf(db, owner)
        {
          CreateStaysWithin(db, e, LimitOf(db, owner), owner, t);
        }
        CreateKeepsUsers(db, e);
      }
    } else {
      var full := FullMonth(e);
      FullMonthOverflows(e);
      assert WithinLimits(full) && !WithinLimits(Create(full, e).0);
    }
  }

  lemma CreateKeepsUsers(db: Db, e: EventInput)
    ensures Create(db, e).0.users == db.users
  {
    hide FindByKey, AssertCanReserve;
  }

  /** A store whose limit is used up in the month that is recorded, but not in the month that is checked. */
  function FullMonth(e: EventInput): Db {
    Db(map[e.owner := Some(1)], [], [], [LedgerRow(e.owner, 1, UsageInstant(e), ForRequest(0))])
  }

  lemma FullMonthOverflows(e: EventInput)
    requires e.channel == SMS && KstDate(CheckInstant(e)).year >= 100 && KstDate(UsageInstant(e)).year >= 100
    requires InTime(e.schedule, e.now) && e.refusal.None? && !SameKstMonth(CheckInstant(e), UsageInstant(e))
    ensures WithinLimits(FullMonth(e)) && !WithinLimits(Create(FullMonth(e), e).0)
  {
    hide GetKstMonthWindow, KstDate;
    var db, usageAt := FullMonth(e), UsageInstant(e);
    var row := LedgerRow(e.owner, 1, usageAt, ForRequest(0));
    assert db.ledger == [] + [row];
    forall t ensures MonthlyUsed(db, e.owner, t) == if GetKstMonthWindow(t).Has(usageAt) then 1 else 0 {
      UsedAppend([], row, e.owner, GetKstMonthWindow(t));
    }
    WindowsPartition(CheckInstant(e), usageAt);
    WindowsPartition(usageAt, usageAt);
    var after := Create(db, e).0;
    assert after.ledger == db.ledger + [row];
    UsedAppend(db.ledger, row, e.owner, GetKstMonthWindow(usageAt));
    assert MonthlyUsed(after, e.owner, usageAt) == 2;
  }

  // ------------------------------------------------------------ conservation

  function SmsRequests(requests: seq<Request>, owner: string): nat {
    if requests == [] then 0
    else
      var last := requests[|requests| - 1];
      SmsRequests(requests[..|requests| - 1], owner) + (if last.owner == owner && last.channel == SMS then 1 else 0)
  }

  function CampaignRecipients(campaigns: seq<Campaign>, owner: string): nat {
    if campaigns == [] then 0
    else
      var last := campaigns[|campaigns| - 1];
      CampaignRecipients(campaigns[..|campaigns| - 1], owner)
        + (if last.owner == owner then last.totalRecipientCount else 0)
  }

  predicate Conserved(db: Db, owner: string) {
    TotalUsed(db.ledger, owner) == SmsRequests(db.requests, owner) + CampaignRecipients(db.campaigns, owner)
  }

  /** The count of SMS requests only depends on owners and channels. */
  lemma {:induction false} SameSmsRequests(a: seq<Request>, b: seq<Request>, owner: string)
    requires |a| == |b| && forall i | 0 <= i < |a| :: a[i].owner == b[i].owner && a[i].channel == b[i].channel
    ensures SmsRequests(a, owner) == SmsRequests(b, owner)
  {
    if a != [] { SameSmsRequests(a[..|a| - 1], b[..|b| - 1], owner); }
  }

  lemma {:induction false} AddedSmsRequests(before: seq<Request>, after: seq<Request>, owner: string, of: string,
                                            channel: Channel)
    requires |before| <= |after|
    requires forall i | 0 <= i < |before| ::
               after[i].owner == before[i].owner && after[i].channel == before[i].channel
    requires forall i | |before| <= i < |after| :: after[i].owner == of && after[i].channel == channel
    ensures SmsRequests(after, owner)
         == SmsRequests(before, owner) + (if of == owner && channel == SMS then |after| - |before| else 0)
    decreases |after|
  {
    if |after| == |before| {
      SameSmsRequests(before, after, owner);
    } else {
      AddedSmsRequests(before, after[..|after| - 1], owner, of, channel);
    }
  }

  lemma CreateConserves(db: Db, e: EventInput, owner: string)
    requires Conserved(db, owner)
    ensures Conserved(Create(db, e).0, owner)
  {
    hide AssertCanReserve, FindByKey, TotalUsed, SmsRequests, CampaignRecipients;
    var after := Create(db, e).0;
    if |after.requests| > |db.requests| {
      AddedSmsRequests(db.requests, after.requests, owner, e.owner, e.channel);
      if e.channel == SMS {
        TotalAppend(db.ledger, LedgerRow(e.owner, 1, UsageInstant(e), ForRequest(|db.requests|)), owner);
      }
    }
  }

  lemma ManualSmsConserves(db: Db, o: string, batchId: string, phones: seq<string>, usageAt: int, queued: nat,
                           owner: string)
    requires Conserved(db, owner)
    ensures Conserved(CreateManualSms(db, o, batchId, phones, usageAt, queued).0, owner)
  {
    hide AssertCanReserve, TotalUsed, SmsRequests, CampaignRecipients, CreateManualSms;
    var (after, reply) := CreateManualSms(db, o, batchId, phones, usageAt, queued);
    ManualSmsLedger(db, o, batchId, phones, usageAt, queued);
    ManualSmsShape(db, o, batchId, phones, usageAt, queued);
    if !reply.Rejected? {
      ManualLedgerSums(db.ledger, o, |phones|, |db.requests|, usageAt, owner, Window(0, 0));
      AddedSmsRequests(db.requests, after.requests, owner, o, SMS);
    }
  }

  lemma AddedRecipients(campaigns: seq<Campaign>, c: Campaign, owner: string)
    ensures CampaignRecipients(campaigns + [c], owner)
         == CampaignRecipients(campaigns, owner) + (if c.owner == owner then c.totalRecipientCount else 0)
  {
    assert (campaigns + [c])[..|campaigns|] == campaigns;
  }

  lemma BulkSmsConserves(db: Db, o: string, recipients: nat, usageAt: int, owner: string)
    requires Conserved(db, owner)
    ensures Conserved(CreateBulkSms(db, o, recipients, usageAt).0, owner)
  {
    hide AssertCanReserve, SmsRequests, TotalUsed, CampaignRecipients;
    TotalAppend(db.ledger, LedgerRow(o, recipients, usageAt, ForCampaign(|db.campaigns|)), owner);
    AddedRecipients(db.campaigns, Campaign(o, recipients), owner);
  }

  /** Steps that reserve nothing add at most one row, and for AlimTalk. */
  lemma OtherRows(db: Db, a: Action)
    requires !a.CreateAction? && !a.ManualSmsAction? && !a.AttemptAction? && !a.EnvironmentAction?
    ensures var after := Next(db, a).requests;
            |after| > |db.requests| ==> |after| == |db.requests| + 1 && after[|db.requests|].channel == ALIMTALK
  {
    hide FindByKey, LatestRetry, AssertCanReserve, ScheduleRefusal;
  }

  lemma OtherStepsConserve(db: Db, a: Action, owner: string)
    requires !a.CreateAction? && !a.ManualSmsAction? && !a.BulkSmsAction?
    requires Conserved(db, owner)
    ensures Conserved(Next(db, a), owner)
  {
    hide Next, TotalUsed, SmsRequests, CampaignRecipients, Attempt, Environment;
    var after := Next(db, a);
    LedgerIsKept(db, a);
    NextShape(db, a);
    if |after.requests| > |db.requests| {
      OtherRows(db, a);
      AddedSmsRequests(db.requests, after.requests, owner, after.requests[|db.requests|].owner, ALIMTALK);
    } else {
      SameSmsRequests(db.requests, after.requests, owner);
    }
  }

  /** In every run, an owner's ledger total is the number of the owner's SMS requests plus the
      recipients of the owner's bulk SMS campaigns. */
  lemma {:induction false} LedgerIsConserved(db: Db, actions: seq<Action>, owner: string)
    requires Initial(db)
    ensures Conserved(After(db, actions), owner)
  {
    hide Next, Conserved;
    if actions != [] {
      var n := |actions| - 1;
      var before := After(db, actions[..n]);
      LedgerIsConserved(db, actions[..n], owner);
      StepConserves(before, actions[n], owner);
    } else {
      NothingIsConserved(db, owner);
    }
  }

  lemma NothingIsConserved(db: Db, owner: string)
    requires Initial(db)
    ensures Conserved(db, owner)
  {}

  lemma StepConserves(db: Db, a: Action, owner: string)
    requires Conserved(db, owner)
    ensures Conserved(Next(db, a), owner)
  {
    hide Conserved, Create, CreateManualSms, CreateBulkSms, FindByKey, LatestRetry, Attempt, Environment;
    match a
    case CreateAction(e) => CreateConserves(db, e, owner);
    case ManualSmsAction(o, batchId, phones, usageAt, queued) =>
      ManualSmsConserves(db, o, batchId, phones, usageAt, queued, owner);
    case BulkSmsAction(o, recipients, usageAt) => BulkSmsConserves(db, o, recipients, usageAt, owner);
    case _ => OtherStepsConserve(db, a, owner);
  }
}
