/** The tables of the messaging backend as one state machine: acceptance of requests and
    campaigns with their SMS quota (`MessageRequestsService`, `BulkSmsService`,
    `SmsQuotaService`), user retries, limit updates and the worker. Transactions are
    atomic steps; clock readings, random keys and provider outcomes are inputs. */
module Store {
  import opened Wrappers
  import opened Calendar
  import opened MessageRun
  import opened Schedules

  const DEFAULT_MONTHLY_LIMIT := 1000

  datatype Channel = SMS | ALIMTALK | BRAND_MESSAGE

  /** A request row with its job; the id of a row is its position in the table. */
  datatype Request = Request(
    owner: string,
    idempotencyKey: string,
    eventKey: string,
    phone: string,
    channel: Channel,
    retryOf: Option<nat>,
    run: Run)

  datatype Campaign = Campaign(owner: string, totalRecipientCount: nat)

  datatype Source = ForRequest(id: nat) | ForCampaign(id: nat)

  datatype LedgerRow = LedgerRow(owner: string, quantity: nat, usageAt: int, source: Source)

  /** `users` holds the monthly limit of every account, if one is set. */
  datatype Db = Db(
    users: map<string, Option<nat>>,
    requests: seq<Request>,
    campaigns: seq<Campaign>,
    ledger: seq<LedgerRow>)

  datatype Failure =
    | NotFound | RuleNotFound | MissingVariables | ChannelNotReady | QuotaExceeded | KeyTaken
    | NotRetryable | WrongChannel | AlreadyRetried | EventInactive | NoRecipients
    | UnreadableSchedule | PastSchedule | UnknownPartner | EventNotFound | NoRecipientPhone

  /** A call is answered, refused without a trace, or fails because the queue does not take a
      job although its row is committed. */
  datatype Reply<T> = Ok(value: T) | Rejected(failure: Failure) | NotQueued

  // ------------------------------------------------------------------- quota

  function LimitOf(db: Db, owner: string): nat
    requires owner in db.users
  {
    if db.users[owner].Some? then db.users[owner].value else DEFAULT_MONTHLY_LIMIT
  }

  /** The sum of an owner's quantities in a window. */
  function Used(ledger: seq<LedgerRow>, owner: string, w: Window): nat {
    if ledger == [] then 0
    else
      var last := ledger[|ledger| - 1];
      Used(ledger[..|ledger| - 1], owner, w) + (if last.owner == owner && w.Has(last.usageAt) then last.quantity else 0)
  }

  function TotalUsed(ledger: seq<LedgerRow>, owner: string): nat {
    if ledger == [] then 0
    else
      var last := ledger[|ledger| - 1];
      TotalUsed(ledger[..|ledger| - 1], owner) + (if last.owner == owner then last.quantity else 0)
  }

  /** `assertCanReserveUsage`: `None` lets the reservation through. */
  function AssertCanReserve(db: Db, owner: string, quantity: nat, usageAt: int): Option<Failure> {
    if owner !in db.users then Some(NotFound)
    else if Used(db.ledger, owner, GetKstMonthWindow(usageAt)) + quantity > LimitOf(db, owner) then Some(QuotaExceeded)
    else None
  }

  function Reserve(db: Db, row: LedgerRow): Db {
    db.(ledger := db.ledger + [row])
  }

  // ---------------------------------------------------------------- requests

  function FindByKey(requests: seq<Request>, owner: string, key: string): (r: Option<nat>)
    ensures r.Some? ==>
              r.value < |requests| && requests[r.value].owner == owner && requests[r.value].idempotencyKey == key
    ensures r.None? ==>
              forall i | 0 <= i < |requests| ::
                !(requests[i].owner == owner && requests[i].idempotencyKey == key)
  {
    if requests == [] then None
    else
      var n := |requests| - 1;
      if requests[n].owner == owner && requests[n].idempotencyKey == key then Some(n)
      else FindByKey(requests[..n], owner, key)
  }

  function Insert(db: Db, r: Request): Db {
    db.(requests := db.requests + [r])
  }

  function EnqueueAt(db: Db, id: nat): Db
    requires id < |db.requests|
  {
    db.(requests := db.requests[id := db.requests[id].(run := Enqueue(db.requests[id].run))])
  }

  /** `enqueueSendMessage` for a row that is committed; `queued` tells whether the queue takes the job. */
  function EnqueueNew(db: Db, id: nat, queued: bool): (Db, Reply<nat>)
    requires id < |db.requests|
  {
    if queued then (EnqueueAt(db, id), Ok(id)) else (db, NotQueued)
  }

  /** Why a schedule is refused on arrival, if it is. */
  function ScheduleRefusal(s: Schedule, now: int): (r: Option<Failure>)
    ensures r.None? <==> InTime(s, now)
  {
    if InTime(s, now) then None
    else if s.Unreadable? then Some(UnreadableSchedule)
    else Some(PastSchedule)
  }

  /** What a request asks for, when it arrives, and what its rule makes of it: a refusal (no
      enabled rule, missing variables, or no channel that is ready) or the channel. Unless the
      message is scheduled, the clock is read once more for the quota check and once for the reservation. */
  datatype EventInput = EventInput(
    owner: string, key: string, eventKey: string, phone: string, schedule: Schedule, now: int,
    refusal: Option<Failure>, channel: Channel, checkedAt: int, reservedAt: int, queued: bool)

  function CheckInstant(e: EventInput): int {
    if e.schedule.At? then e.schedule.instant else e.checkedAt
  }

  function UsageInstant(e: EventInput): int {
    if e.schedule.At? then e.schedule.instant else e.reservedAt
  }

  /** `create`. The schedule is checked before the key is looked up, and a key that is known is
      answered before the rule is looked at. */
  function Create(db: Db, e: EventInput): (Db, Reply<nat>) {
    var late := ScheduleRefusal(e.schedule, e.now);
    if late.Some? then (db, Rejected(late.value))
    else
      match FindByKey(db.requests, e.owner, e.key)
      case Some(id) => (db, Ok(id))
      case None =>
        var refusal :=
          if e.refusal.Some? then e.refusal
          else if e.channel == SMS then AssertCanReserve(db, e.owner, 1, CheckInstant(e))
          else None;
        if refusal.Some? then (db, Rejected(refusal.value))
        else
          var id := |db.requests|;
          var inserted := Insert(db, Request(e.owner, e.key, e.eventKey, e.phone, e.channel, None, NEW_RUN));
          var usage := LedgerRow(e.owner, 1, UsageInstant(e), ForRequest(id));
          var reserved := if e.channel == SMS then Reserve(inserted, usage) else inserted;
          EnqueueNew(reserved, id, e.queued)
  }

  /** An AlimTalk request for an active event: a refusal, if variables are missing or the default
      template cannot be had, and whether the template or the profile is not ready. */
  datatype PublInput = PublInput(
    owner: string, key: string, eventKey: string, phone: string, retryOf: Option<nat>, schedule: Schedule, now: int,
    refusal: Option<Failure>, notReady: bool, queued: bool)

  /** `createAcceptedPublEventRequest`: AlimTalk without quota. A template or profile that is
      not ready is stored as an already failed request without a job. */
  function CreatePubl(db: Db, e: PublInput): (Db, Reply<nat>) {
    var late := ScheduleRefusal(e.schedule, e.now);
    if late.Some? then (db, Rejected(late.value))
    else
      match FindByKey(db.requests, e.owner, e.key)
      case Some(id) => (db, Ok(id))
      case None =>
        if e.refusal.Some? then (db, Rejected(e.refusal.value))
        else
          var id := |db.requests|;
          var run := if e.notReady then NEW_RUN.(status := SEND_FAILED) else NEW_RUN;
          var inserted := Insert(db, Request(e.owner, e.key, e.eventKey, e.phone, ALIMTALK, e.retryOf, run));
          if e.notReady then (inserted, Ok(id)) else EnqueueNew(inserted, id, e.queued)
  }

  /** What is found out about the event of a request. */
  datatype EventState = NoDefinition | Inactive | Active(refusal: Option<Failure>, notReady: bool)

  /** What the AlimTalk endpoint is asked for: the partner, the account of the provider user if
      there is one, the event, and the trimmed phone, which is empty if there is none. */
  datatype PublRequest = PublRequest(
    partnerIsPubl: bool, account: Option<string>, key: string, eventKey: string, event: EventState, phone: string,
    schedule: Schedule, now: int, queued: bool)

  /** `createFromPublEvent`: what it refuses before the request is accepted, in its order. */
  function CreateFromPublEvent(db: Db, d: PublRequest): (Db, Reply<nat>) {
    if !d.partnerIsPubl then (db, Rejected(UnknownPartner))
    else if d.account.None? then (db, Rejected(NotFound))
    else
      match d.event
      case NoDefinition => (db, Rejected(EventNotFound))
      case Inactive => (db, Rejected(EventInactive))
      case Active(refusal, notReady) =>
        if d.phone == "" then (db, Rejected(NoRecipientPhone))
        else
          CreatePubl(db,
            PublInput(d.account.value, d.key, d.eventKey, d.phone, None, d.schedule, d.now, refusal, notReady,
              d.queued))
  }

  function Digit(n: nat): char
    requires n < 10
  {
    '0' + n as char
  }

  function Decimal(n: nat): string {
    if n < 10 then [Digit(n)] else Decimal(n / 10) + [Digit(n % 10)]
  }

  function BatchKey(batchId: string, index: nat): string {
    batchId + "_" + Decimal(index + 1)
  }

  /** The transaction of `createManualSmsRequests` after the check, for the phones from
      `index` on; a key that is taken aborts it. */
  function InsertManualSms(db: Db, owner: string, batchId: string, phones: seq<string>, index: nat,
                           usageAt: int): (r: Option<Db>)
    requires index <= |phones|
    ensures r.Some? ==> |r.value.requests| == |db.requests| + |phones| - index
    decreases |phones| - index
  {
    if index == |phones| then Some(db)
    else
      var key := BatchKey(batchId, index);
      if FindByKey(db.requests, owner, key).Some? then None
      else
        var id := |db.requests|;
        var inserted := Insert(db, Request(owner, key, "MANUAL_SMS_SEND", phones[index], SMS, None, NEW_RUN));
        var reserved := Reserve(inserted, LedgerRow(owner, 1, usageAt, ForRequest(id)));
        InsertManualSms(reserved, owner, batchId, phones, index + 1, usageAt)
  }

  /** The jobs of the rows from `id` up to `end`. */
  function EnqueueFrom(db: Db, id: nat, end: nat): (r: Db)
    requires id <= end <= |db.requests|
    ensures |r.requests| == |db.requests|
    decreases end - id
  {
    if id == end then db else EnqueueFrom(EnqueueAt(db, id), id + 1, end)
  }

  /** `createManualSmsRequests` for a schedule, sender number and body that are in order: the rows
      of all recipients or none, and then jobs in order while the queue takes them, `queued` at most. */
  function CreateManualSms(db: Db, owner: string, batchId: string, phones: seq<string>, usageAt: int, queued: nat)
    : (Db, Reply<nat>)
  {
    if phones == [] then (db, Rejected(NoRecipients))
    else
      match AssertCanReserve(db, owner, |phones|, usageAt)
      case Some(failure) => (db, Rejected(failure))
      case None =>
        match InsertManualSms(db, owner, batchId, phones, 0, usageAt)
        case None => (db, Rejected(KeyTaken))
        case Some(committed) =>
          if queued < |phones| then (EnqueueFrom(committed, |db.requests|, |db.requests| + queued), NotQueued)
          else (EnqueueFrom(committed, |db.requests|, |committed.requests|), Ok(|phones|))
  }

  /** The reservation of a bulk SMS campaign with its recipients. */
  function CreateBulkSms(db: Db, owner: string, recipients: nat, usageAt: int): (Db, Reply<nat>) {
    if recipients == 0 then (db, Rejected(NoRecipients))
    else
      match AssertCanReserve(db, owner, recipients, usageAt)
      case Some(failure) => (db, Rejected(failure))
      case None =>
        var id := |db.campaigns|;
        var created := db.(campaigns := db.campaigns + [Campaign(owner, recipients)]);
        (Reserve(created, LedgerRow(owner, recipients, usageAt, ForCampaign(id))), Ok(id))
  }

  function SetLimit(db: Db, owner: string, limit: nat): (Db, Reply<nat>) {
    if owner in db.users then (db.(users := db.users[owner := Some(limit)]), Ok(limit)) else (db, Rejected(NotFound))
  }

  // ------------------------------------------------------------------ retries

  /** The newest retry of a root: `orderBy createdAt desc, take 1`. */
  function LatestRetry(requests: seq<Request>, root: nat): (r: Option<nat>)
    ensures r.Some? ==> r.value < |requests| && requests[r.value].retryOf == Some(root)
                        && forall i | r.value < i < |requests| :: requests[i].retryOf != Some(root)
    ensures r.None? ==> forall i | 0 <= i < |requests| :: requests[i].retryOf != Some(root)
  {
    if requests == [] then None
    else
      var n := |requests| - 1;
      if requests[n].retryOf == Some(root) then Some(n) else LatestRetry(requests[..n], root)
  }

  function RootOf(requests: seq<Request>, id: nat): nat
    requires id < |requests|
  {
    if requests[id].retryOf.Some? then requests[id].retryOf.value else id
  }

  /** `retryForUser` at the clock reading `now`; a retry is never scheduled. */
  function RetryForUser(db: Db, owner: string, id: nat, key: string, event: EventState, now: int, queued: bool)
    : (Db, Reply<nat>)
  {
    if id >= |db.requests| || db.requests[id].owner != owner then (db, Rejected(NotFound))
    else
      var requested := db.requests[id];
      if !FailedStatus(requested.run.status) then (db, Rejected(NotRetryable))
      else if requested.channel != ALIMTALK then (db, Rejected(WrongChannel))
      else
        var root := RootOf(db.requests, id);
        if root >= |db.requests| || db.requests[root].owner != owner then (db, Rejected(NotFound))
        else
          var latest := LatestRetry(db.requests, root);
          if latest.Some? && !FailedStatus(db.requests[latest.value].run.status) then (db, Rejected(AlreadyRetried))
          else
            match event
            case Inactive => (db, Rejected(EventInactive))
            case Active(refusal, notReady) =>
              CreatePubl(db,
                PublInput(owner, key, requested.eventKey, requested.phone, Some(root), AtOnce, now, refusal, notReady,
                  queued))
            case NoDefinition =>
              if FindByKey(db.requests, owner, key).Some? then (db, Rejected(KeyTaken))
              else
                var newId := |db.requests|;
                var inserted := Insert(db,
                  Request(owner, key, requested.eventKey, requested.phone, ALIMTALK, Some(root), NEW_RUN));
                EnqueueNew(inserted, newId, queued)
  }

  // ------------------------------------------------------------- the machine

  function UpdateRun(db: Db, id: nat, run: Run): Db
    requires id < |db.requests|
  {
    db.(requests := db.requests[id := db.requests[id].(run := run)])
  }

  datatype Action =
    | CreateAction(event: EventInput)
    | PublAction(request: PublRequest)
    | ManualSmsAction(owner: string, batchId: string, phones: seq<string>, usageAt: int, queuedJobs: nat)
    | BulkSmsAction(owner: string, recipients: nat, usageAt: int)
    | SetLimitAction(owner: string, limit: nat)
    | RetryAction(owner: string, id: nat, key: string, eventState: EventState, now: int, queued: bool)
    | AttemptAction(id: nat, outcome: Outcome, faults: Faults)
    | EnvironmentAction(id: nat, status: Status)

  function Next(db: Db, a: Action): Db {
    match a
    case CreateAction(e) => Create(db, e).0
    case PublAction(d) => CreateFromPublEvent(db, d).0
    case ManualSmsAction(owner, batchId, phones, usageAt, queued) =>
      CreateManualSms(db, owner, batchId, phones, usageAt, queued).0
    case BulkSmsAction(owner, recipients, usageAt) => CreateBulkSms(db, owner, recipients, usageAt).0
    case SetLimitAction(owner, limit) => SetLimit(db, owner, limit).0
    case RetryAction(owner, id, key, event, now, queued) => RetryForUser(db, owner, id, key, event, now, queued).0
    case AttemptAction(id, outcome, faults) =>
      if id < |db.requests| then UpdateRun(db, id, Attempt(db.requests[id].run, outcome, faults)) else db
    case EnvironmentAction(id, status) =>
      if id < |db.requests| then UpdateRun(db, id, Environment(db.requests[id].run, status)) else db
  }

  /** The state after a run of actions. */
  function After(db: Db, actions: seq<Action>): Db {
    if actions == [] then db else Next(After(db, actions[..|actions| - 1]), actions[|actions| - 1])
  }

  predicate Initial(db: Db) {
    db.requests == [] && db.campaigns == [] && db.ledger == []
  }
}
