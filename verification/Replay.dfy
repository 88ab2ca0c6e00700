/** Idempotency keys over every run: an owner never has two rows with one key, so a request
    that is repeated later changes nothing and, while its schedule is in time, gives back the
    same row. */
module Replay {
  import opened Wrappers
  import opened JsText
  import opened MessageRun
  import opened Schedules
  import opened Store
  import opened StoreRuns
  import opened SmsQuota
  import opened Calendar

  predicate SameKey(a: Request, b: Request) {
    a.owner == b.owner && a.idempotencyKey == b.idempotencyKey
  }

  predicate UniqueKeys(requests: seq<Request>) {
    forall i, j | 0 <= i < j < |requests| :: !SameKey(requests[i], requests[j])
  }

  lemma AppendKeepsUnique(requests: seq<Request>, r: Request)
    requires UniqueKeys(requests) && FindByKey(requests, r.owner, r.idempotencyKey).None?
    ensures UniqueKeys(requests + [r])
  {
    hide FindByKey;
  }

  lemma IdentityKeepsUnique(before: seq<Request>, after: seq<Request>)
    requires UniqueKeys(before) && |after| == |before|
    requires forall i | 0 <= i < |before| :: SameIdentity(before[i], after[i])
    ensures UniqueKeys(after)
  {}

  lemma {:induction false} InsertedKeysAreUnique(db: Db, owner: string, batchId: string, phones: seq<string>,
                                                 index: nat, usageAt: int)
    requires index <= |phones| && UniqueKeys(db.requests)
    ensures match InsertManualSms(db, owner, batchId, phones, index, usageAt)
            case None => true
            case Some(r) => UniqueKeys(r.requests)
    decreases |phones| - index
  {
    hide UniqueKeys, FindByKey;
    if index < |phones| && FindByKey(db.requests, owner, BatchKey(batchId, index)).None? {
      var row := Request(owner, BatchKey(batchId, index), "MANUAL_SMS_SEND", phones[index], SMS, None, NEW_RUN);
      AppendKeepsUnique(db.requests, row);
      var reserved := Reserve(Insert(db, row), LedgerRow(owner, 1, usageAt, ForRequest(|db.requests|)));
      InsertedKeysAreUnique(reserved, owner, batchId, phones, index + 1, usageAt);
    }
  }

  lemma ManualSmsKeepsUnique(db: Db, owner: string, batchId: string, phones: seq<string>, usageAt: int,
                             queued: nat)
    requires UniqueKeys(db.requests)
    ensures UniqueKeys(CreateManualSms(db, owner, batchId, phones, usageAt, queued).0.requests)
  {
    hide UniqueKeys, FindByKey, AssertCanReserve;
    if phones != [] && AssertCanReserve(db, owner, |phones|, usageAt).None? {
      InsertedKeysAreUnique(db, owner, batchId, phones, 0, usageAt);
      match InsertManualSms(db, owner, batchId, phones, 0, usageAt)
      case None =>
      case Some(committed) =>
        var end := |db.requests| + (if queued < |phones| then queued else |phones|);
        EnqueuedFrom(committed, |db.requests|, end);
        IdentityKeepsUnique(committed.requests, EnqueueFrom(committed, |db.requests|, end).requests);
    }
  }

  /** The other actions that add a row add one whose key was looked up before. */
  lemma SingleRowKeepsUnique(db: Db, a: Action)
    requires UniqueKeys(db.requests)
    requires a.CreateAction? || a.PublAction? || a.RetryAction?
    ensures UniqueKeys(Next(db, a).requests)
  {
    hide UniqueKeys, FindByKey, AssertCanReserve, LatestRetry;
    var before, after := db.requests, Next(db, a).requests;
    if after != before {
      var row := after[|before|];
      assert FindByKey(before, row.owner, row.idempotencyKey).None?;
      AppendKeepsUnique(before, row);
      assert after == before + [row];
    }
  }

  lemma StepKeepsUnique(db: Db, a: Action)
    requires UniqueKeys(db.requests)
    ensures UniqueKeys(Next(db, a).requests)
  {
    hide UniqueKeys, FindByKey, CreateManualSms, Create, CreateFromPublEvent, RetryForUser, AssertCanReserve;
    hide Attempt, Environment;
    match a
    case ManualSmsAction(owner, batchId, phones, usageAt, queued) =>
      ManualSmsKeepsUnique(db, owner, batchId, phones, usageAt, queued);
    case AttemptAction(_, _, _) =>
      NextShape(db, a);
      IdentityKeepsUnique(db.requests, Next(db, a).requests);
    case EnvironmentAction(_, _) =>
      NextShape(db, a);
      IdentityKeepsUnique(db.requests, Next(db, a).requests);
    case BulkSmsAction(_, _, _) =>
    case SetLimitAction(_, _) =>
    case _ => SingleRowKeepsUnique(db, a);
  }

  /** In every run, no owner has two rows with the same key. */
  lemma {:induction false} KeysStayUnique(db: Db, actions: seq<Action>)
    requires UniqueKeys(db.requests)
    ensures UniqueKeys(After(db, actions).requests)
  {
    hide Next, UniqueKeys;
    if actions != [] {
      var n := |actions| - 1;
      KeysStayUnique(db, actions[..n]);
      StepKeepsUnique(After(db, actions[..n]), actions[n]);
    }
  }

  /** A row that is in the table is what every later look-up of its key finds. */
  lemma LookupIsStable(db: Db, more: seq<Action>, id: nat)
    requires UniqueKeys(db.requests) && id < |db.requests|
    ensures FindByKey(After(db, more).requests, db.requests[id].owner, db.requests[id].idempotencyKey) == Some(id)
  {
    hide After, FindByKey;
    KeysStayUnique(db, more);
    RowsPersist(db, more);
    var owner, key := db.requests[id].owner, db.requests[id].idempotencyKey;
    var later := After(db, more).requests;
    var found := FindByKey(later, owner, key);
    assert SameIdentity(db.requests[id], later[id]);
    assert SameKey(later[id], later[found.value]);
  }

  /** The row that `create` finds or stores. */
  function RowOf(db: Db, e: EventInput): nat {
    match FindByKey(db.requests, e.owner, e.key)
    case Some(id) => id
    case None => |db.requests|
  }

  lemma CreateFindsItsRow(db: Db, e: EventInput)
    requires !Create(db, e).1.Rejected?
    ensures var (created, reply) := Create(db, e);
            && (reply.Ok? ==> reply.value == RowOf(db, e))
            && RowOf(db, e) < |created.requests|
            && created.requests[RowOf(db, e)].owner == e.owner
            && created.requests[RowOf(db, e)].idempotencyKey == e.key
  {
    hide FindByKey, AssertCanReserve;
  }

  lemma NoKeys(db: Db)
    requires Initial(db)
    ensures UniqueKeys(db.requests)
  {}

  /** The reason for which a schedule is refused. */
  function RefusedAs(s: Schedule): Failure {
    if s.Unreadable? then UnreadableSchedule else PastSchedule
  }

  /** Once `create` has found or stored a row, every later call with the same owner and key
      leaves rows, ledger, limits and jobs as they are, whatever happened in between and
      whatever else the repeated call asks for. That row is its answer exactly when its
      schedule is in time as it arrives, for that is checked before the key is looked up. */
  lemma ReplayChangesNothing(db: Db, actions: seq<Action>, e: EventInput, more: seq<Action>, again: EventInput)
    requires Initial(db)
    requires again.owner == e.owner && again.key == e.key
    requires !Create(After(db, actions), e).1.Rejected?
    ensures var before := After(db, actions);
            var (created, reply) := Create(before, e);
            var later := After(created, more);
            var (after, answer) := Create(later, again);
            && (reply.Ok? ==> reply == Ok(RowOf(before, e)))
            && after == later
            && (answer == Ok(RowOf(before, e)) <==> InTime(again.schedule, again.now))
            && (!InTime(again.schedule, again.now) ==> answer == Rejected(RefusedAs(again.schedule)))
  {
    hide After, FindByKey, AssertCanReserve, UniqueKeys, RowOf;
    var before := After(db, actions);
    NoKeys(db);
    KeysStayUnique(db, actions);
    CreateFindsItsRow(before, e);
    SingleRowKeepsUnique(before, CreateAction(e));
    LookupIsStable(Create(before, e).0, more, RowOf(before, e));
  }

  /** So the very same scheduled request, sent again when its time has come, is refused,
      although it was accepted and its row is still there. */
  lemma LateReplayIsRefused(db: Db, owner: string, key: string, instant: int, more: seq<Action>)
    requires Initial(db)
    ensures var e :=
              EventInput(owner, key, "ORDER", "01012345678", At(instant), instant - 1, None, ALIMTALK, 0, 0, true);
            var (created, reply) := Create(db, e);
            var later := After(created, more);
            && reply == Ok(0)
            && Create(later, e) == (later, Ok(0))
            && Create(later, e.(now := instant)) == (later, Rejected(PastSchedule))
  {
    hide After;
    var e := EventInput(owner, key, "ORDER", "01012345678", At(instant), instant - 1, None, ALIMTALK, 0, 0, true);
    NothingYet(db);
    ReplayChangesNothing(db, [], e, more, e);
  }

  lemma NothingYet(db: Db)
    ensures After(db, []) == db
  {}

  /** And a request whose row is stored but whose job the queue did not take is answered as
      accepted when it is repeated in time, but it never has a job and is never sent. */
  lemma LostJobIsNeverMade(db: Db, actions: seq<Action>, e: EventInput, more: seq<Action>, again: EventInput)
    requires Initial(db)
    requires again.owner == e.owner && again.key == e.key
    requires Create(After(db, actions), e).1.NotQueued?
    ensures var before := After(db, actions);
            var later := After(Create(before, e).0, more);
            var id: nat := |before.requests|;
            && id < |later.requests|
            && later.requests[id].run.phase == NoJob && later.requests[id].run.sends == 0
            && (InTime(again.schedule, again.now) ==> Create(later, again) == (later, Ok(id)))
  {
    hide After, FindByKey, AssertCanReserve, UniqueKeys;
    var before := After(db, actions);
    ReplayChangesNothing(db, actions, e, more, again);
    JoblessStays(Create(before, e).0, more, |before.requests|);
  }

  /** The instant that a message counts for: the one it is scheduled for, or else a clock reading. */
  function SentAt(s: Schedule, clock: int): int {
    match s
    case At(instant) => instant
    case _ => clock
  }

  /** The first reason to refuse a request under a new key, if there is one. */
  function CreateRefusal(db: Db, e: EventInput): Option<Failure> {
    if !InTime(e.schedule, e.now) then Some(RefusedAs(e.schedule))
    else if e.refusal.Some? then e.refusal
    else if e.channel == SMS && e.owner !in db.users then Some(NotFound)
    else if e.channel == SMS && MonthlyUsed(db, e.owner, SentAt(e.schedule, e.checkedAt)) >= LimitOf(db, e.owner) then
      Some(QuotaExceeded)
    else None
  }

  /** Under a new key `create` stores a request exactly when its schedule, its rule and, for an SMS,
      its account and month allow it, and otherwise nothing changes. The row stays in the
      table for good, as it was asked for. It starts with a waiting job, if the queue takes
      it, and an SMS with one reservation. */
  lemma AcceptedRequestPersists(db: Db, e: EventInput, more: seq<Action>)
    requires FindByKey(db.requests, e.owner, e.key).None?
    ensures var (created, reply) := Create(db, e);
            var run := if e.queued then NEW_RUN.(phase := Queued) else NEW_RUN;
            var asked := Request(e.owner, e.key, e.eventKey, e.phone, e.channel, None, run);
            var usage := LedgerRow(e.owner, 1, SentAt(e.schedule, e.reservedAt), ForRequest(|db.requests|));
            var later := After(created, more).requests;
            var refusal := CreateRefusal(db, e);
            if refusal.Some? then created == db && reply == Rejected(refusal.value)
            else
              && (if e.queued then reply == Ok(|db.requests|) else reply == NotQueued)
              && created.requests == db.requests + [asked]
              && |db.requests| < |later| && SameIdentity(asked, later[|db.requests|])
              && created.ledger == db.ledger + (if e.channel == SMS then [usage] else [])
              && created.users == db.users && created.campaigns == db.campaigns
  {
    hide After, FindByKey, Used, GetKstMonthWindow;
    RowsPersist(Create(db, e).0, more);
  }

  /** The same as for `create`, for the AlimTalk endpoint and a key under which any endpoint has stored a
      row: whatever is asked for, nothing changes, and the row is the answer exactly when the
      partner, the account, the event and the phone are in order and the schedule is in time. */
  lemma PublReplayChangesNothing(db: Db, actions: seq<Action>, id: nat, more: seq<Action>, d: PublRequest)
    requires Initial(db) && id < |After(db, actions).requests|
    requires var row := After(db, actions).requests[id];
             d.key == row.idempotencyKey && (d.account.Some? ==> d.account.value == row.owner)
    ensures var later := After(After(db, actions), more);
            var (after, answer) := CreateFromPublEvent(later, d);
            && after == later
            && (answer == Ok(id) <==> InOrder(d) && InTime(d.schedule, d.now))
            && (InOrder(d) && !InTime(d.schedule, d.now) ==> answer == Rejected(RefusedAs(d.schedule)))
            && (!InOrder(d) ==>
                  answer.Rejected?
                  && answer.failure in {UnknownPartner, NotFound, EventNotFound, EventInactive, NoRecipientPhone})
  {
    hide After, FindByKey, UniqueKeys;
    NoKeys(db);
    KeysStayUnique(db, actions);
    LookupIsStable(After(db, actions), more, id);
  }

  /** What the AlimTalk endpoint asks of a request before it accepts it. */
  predicate InOrder(d: PublRequest) {
    d.partnerIsPubl && d.account.Some? && d.event.Active? && d.phone != ""
  }

  /** The row that the AlimTalk endpoint stores for a request in order. */
  function AskedOfPubl(d: PublRequest): Request
    requires InOrder(d)
  {
    var run :=
      if d.event.notReady then NEW_RUN.(status := SEND_FAILED)
      else if d.queued then NEW_RUN.(phase := Queued)
      else NEW_RUN;
    Request(d.account.value, d.key, d.eventKey, d.phone, ALIMTALK, None, run)
  }

  /** The first reason to refuse a request of the AlimTalk endpoint under a new key, if there is one. */
  function PublRefusal(d: PublRequest): Option<Failure> {
    if !d.partnerIsPubl then Some(UnknownPartner)
    else if d.account.None? then Some(NotFound)
    else if d.event.NoDefinition? then Some(EventNotFound)
    else if d.event.Inactive? then Some(EventInactive)
    else if d.phone == "" then Some(NoRecipientPhone)
    else if !InTime(d.schedule, d.now) then Some(RefusedAs(d.schedule))
    else d.event.refusal
  }

  /** Under a new key the AlimTalk endpoint stores a request exactly when it is in order, in time and
      not refused, as it was asked for, and nothing else changes. The row stays in the table for
      good; it is failed without a job if the template or the profile is not ready, and has a
      waiting job, if the queue takes it, otherwise. */
  lemma PublRequestPersists(db: Db, d: PublRequest, more: seq<Action>)
    requires d.account.Some? ==> FindByKey(db.requests, d.account.value, d.key).None?
    ensures var (created, reply) := CreateFromPublEvent(db, d);
            var later := After(created, more).requests;
            var refusal := PublRefusal(d);
            if refusal.Some? then created == db && reply == Rejected(refusal.value)
            else
              && created == db.(requests := db.requests + [AskedOfPubl(d)])
              && (reply.Ok? <==> d.event.notReady || d.queued)
              && (if reply.Ok? then reply.value == |db.requests| else reply == NotQueued)
              && |db.requests| < |later| && SameIdentity(AskedOfPubl(d), later[|db.requests|])
  {
    hide After, FindByKey;
    RowsPersist(CreateFromPublEvent(db, d).0, more);
  }

  // ------------------------------------------------- the keys of a manual batch

  lemma {:induction false} DecimalIsRead(n: nat)
    ensures AllDigits(Decimal(n)) && NumberOf(Decimal(n)) == n
  {
    if n < 10 {
      assert [Digit(n)][..0] == [];
    } else {
      DecimalIsRead(n / 10);
      assert (Decimal(n / 10) + [Digit(n % 10)])[..|Decimal(n / 10)|] == Decimal(n / 10);
    }
  }

  lemma BatchKeysDiffer(batchId: string, i: nat, j: nat)
    requires i != j
    ensures BatchKey(batchId, i) != BatchKey(batchId, j)
  {
    hide Decimal;
    DecimalIsRead(i + 1);
    DecimalIsRead(j + 1);
    var head := batchId + "_";
    assert BatchKey(batchId, i)[|head|..] == Decimal(i + 1);
    assert BatchKey(batchId, j)[|head|..] == Decimal(j + 1);
  }

  /** No row of the owner has a key of the batch from `index` on. */
  ghost predicate BatchIsNew(requests: seq<Request>, owner: string, batchId: string, index: nat) {
    forall i, k: nat | 0 <= i < |requests| && requests[i].owner == owner && index <= k ::
      requests[i].idempotencyKey != BatchKey(batchId, k)
  }

  /** A batch with a batch id that is not in use never collides with itself: the
      transaction inserts all of its rows. */
  lemma {:induction false} NewBatchIsInserted(db: Db, owner: string, batchId: string, phones: seq<string>, index: nat,
                                              usageAt: int)
    requires index <= |phones| && BatchIsNew(db.requests, owner, batchId, index)
    ensures InsertManualSms(db, owner, batchId, phones, index, usageAt).Some?
    decreases |phones| - index
  {
    hide FindByKey, BatchKey;
    if index < |phones| {
      var key := BatchKey(batchId, index);
      var row := Request(owner, key, "MANUAL_SMS_SEND", phones[index], SMS, None, NEW_RUN);
      var reserved := Reserve(Insert(db, row), LedgerRow(owner, 1, usageAt, ForRequest(|db.requests|)));
      forall i, k: nat | 0 <= i < |reserved.requests| && reserved.requests[i].owner == owner && index + 1 <= k
        ensures reserved.requests[i].idempotencyKey != BatchKey(batchId, k)
      {
        BatchKeysDiffer(batchId, index, k);
      }
      NewBatchIsInserted(reserved, owner, batchId, phones, index + 1, usageAt);
    }
  }

  /** The key of a batch row is the batch id and the number of the row, counted from 1. */
  lemma BatchKeyIs(batchId: string, index: nat)
    ensures var key, n := BatchKey(batchId, index), |batchId| + 1;
            && |key| >= n && key[..n] == batchId + "_"
            && AllDigits(key[n..]) && NumberOf(key[n..]) == index + 1
  {
    hide Decimal;
    DecimalIsRead(index + 1);
    var head := batchId + "_";
    assert (head + Decimal(index + 1))[..|head|] == head;
    assert (head + Decimal(index + 1))[|head|..] == Decimal(index + 1);
  }

  lemma LookupAfterInsert(requests: seq<Request>, r: Request, owner: string, key: string)
    requires r.idempotencyKey != key
    ensures FindByKey(requests + [r], owner, key) == FindByKey(requests, owner, key)
  {
    assert (requests + [r])[..|requests|] == requests;
  }

  /** A batch is inserted exactly when none of its keys is taken. */
  lemma {:induction false} BatchIsInsertedIff(db: Db, owner: string, batchId: string, phones: seq<string>, index: nat,
                                              usageAt: int)
    requires index <= |phones|
    ensures InsertManualSms(db, owner, batchId, phones, index, usageAt).Some?
       <==> forall k | index <= k < |phones| :: FindByKey(db.requests, owner, BatchKey(batchId, k)).None?
    decreases |phones| - index
  {
    hide FindByKey, BatchKey;
    if index < |phones| && FindByKey(db.requests, owner, BatchKey(batchId, index)).None? {
      var row := Request(owner, BatchKey(batchId, index), "MANUAL_SMS_SEND", phones[index], SMS, None, NEW_RUN);
      var reserved := Reserve(Insert(db, row), LedgerRow(owner, 1, usageAt, ForRequest(|db.requests|)));
      BatchIsInsertedIff(reserved, owner, batchId, phones, index + 1, usageAt);
      forall k | index + 1 <= k < |phones|
        ensures FindByKey(reserved.requests, owner, BatchKey(batchId, k))
             == FindByKey(db.requests, owner, BatchKey(batchId, k))
      {
        BatchKeysDiffer(batchId, index, k);
        LookupAfterInsert(db.requests, row, owner, BatchKey(batchId, k));
      }
    }
  }

  /** The first reason to refuse a batch, if there is one. */
  function BatchRefusal(db: Db, owner: string, batchId: string, phones: seq<string>, usageAt: int): Option<Failure> {
    if phones == [] then Some(NoRecipients)
    else if owner !in db.users then Some(NotFound)
    else if MonthlyUsed(db, owner, usageAt) + |phones| > LimitOf(db, owner) then Some(QuotaExceeded)
    else if exists k | 0 <= k < |phones| :: FindByKey(db.requests, owner, BatchKey(batchId, k)).Some? then
      Some(KeyTaken)
    else None
  }

  /** A batch is stored, in full, exactly when there is no reason to refuse it, and otherwise
      nothing changes. */
  lemma BatchIsStoredIff(db: Db, owner: string, batchId: string, phones: seq<string>, usageAt: int, queued: nat)
    ensures var (after, reply) := CreateManualSms(db, owner, batchId, phones, usageAt, queued);
            var refusal := BatchRefusal(db, owner, batchId, phones, usageAt);
            if refusal.Some? then after == db && reply == Rejected(refusal.value)
            else
              && after.ledger == db.ledger + ManualLedger(owner, |phones|, |db.requests|, usageAt)
              && |after.requests| == |db.requests| + |phones|
              && after.users == db.users && after.campaigns == db.campaigns
              && (if |phones| <= queued then reply == Ok(|phones|) else reply == NotQueued)
  {
    hide FindByKey, BatchKey, Used, GetKstMonthWindow, InsertManualSms, EnqueueFrom, ManualLedger;
    BatchIsInsertedIff(db, owner, batchId, phones, 0, usageAt);
    ManualSmsLedger(db, owner, batchId, phones, usageAt, queued);
    ManualSmsShape(db, owner, batchId, phones, usageAt, queued);
  }
}
