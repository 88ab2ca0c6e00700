/** The backend's tables as an object that the services and the worker change in place.
    Every method is tied to the step of the state machine that it implements, so that
    everything proved about runs of the machine holds of its use. */
module MessagingStore {
  import opened Wrappers
  import opened MessageRun
  import opened Schedules
  import opened Store

  class MessagingTables {
    var users: map<string, Option<nat>>
    var requests: seq<Request>
    var campaigns: seq<Campaign>
    var ledger: seq<LedgerRow>

    function View(): Db
      reads this
    {
      Db(users, requests, campaigns, ledger)
    }

    constructor (accounts: map<string, Option<nat>>)
      ensures Initial(View()) && users == accounts
    {
      users, requests, campaigns, ledger := accounts, [], [], [];
    }

    // ------------------------------------------------------- the API services

    /** Inserts a row and returns its id. */
    method InsertRequest(r: Request) returns (id: nat)
      modifies this`requests
      ensures id == |old(requests)| && requests == old(requests) + [r]
    {
      id := |requests|;
      requests := requests + [r];
    }

    /** `queued` tells whether the queue takes the job. */
    method EnqueueSendMessage(id: nat, queued: bool) returns (r: Reply<nat>)
      requires id < |requests|
      modifies this`requests
      ensures (View(), r) == EnqueueNew(old(View()), id, queued)
    {
      if !queued {
        return NotQueued;
      }
      requests := requests[id := requests[id].(run := Enqueue(requests[id].run))];
      r := Ok(id);
    }

    method ReserveUsage(row: LedgerRow)
      modifies this`ledger
      ensures View() == Reserve(old(View()), row)
    {
      ledger := ledger + [row];
    }

    method UpdateUserMonthlySmsLimit(owner: string, limit: nat) returns (r: Reply<nat>)
      modifies this`users
      ensures (View(), r) == SetLimit(old(View()), owner, limit)
    {
      if owner !in users {
        return Rejected(NotFound);
      }
      users := users[owner := Some(limit)];
      r := Ok(limit);
    }

    method CreateRequest(e: EventInput) returns (r: Reply<nat>)
      modifies this`requests, this`ledger
      ensures (View(), r) == Create(old(View()), e)
    {
      hide FindByKey, AssertCanReserve, ScheduleRefusal;
      var late := ScheduleRefusal(e.schedule, e.now);
      if late.Some? {
        return Rejected(late.value);
      }
      var existing := FindByKey(requests, e.owner, e.key);
      if existing.Some? {
        return Ok(existing.value);
      }
      if e.refusal.Some? {
        return Rejected(e.refusal.value);
      }
      if e.channel == SMS {
        var refusal := AssertCanReserve(View(), e.owner, 1, CheckInstant(e));
        if refusal.Some? {
          return Rejected(refusal.value);
        }
      }
      var id := InsertRequest(Request(e.owner, e.key, e.eventKey, e.phone, e.channel, None, NEW_RUN));
      if e.channel == SMS {
        ReserveUsage(LedgerRow(e.owner, 1, UsageInstant(e), ForRequest(id)));
      }
      r := EnqueueSendMessage(id, e.queued);
    }

    method CreateAcceptedPublEventRequest(e: PublInput) returns (r: Reply<nat>)
      modifies this`requests
      ensures (View(), r) == CreatePubl(old(View()), e)
    {
      hide FindByKey, ScheduleRefusal;
      var late := ScheduleRefusal(e.schedule, e.now);
      if late.Some? {
        return Rejected(late.value);
      }
      var existing := FindByKey(requests, e.owner, e.key);
      if existing.Some? {
        return Ok(existing.value);
      }
      if e.refusal.Some? {
        return Rejected(e.refusal.value);
      }
      var run := if e.notReady then NEW_RUN.(status := SEND_FAILED) else NEW_RUN;
      var id := InsertRequest(Request(e.owner, e.key, e.eventKey, e.phone, ALIMTALK, e.retryOf, run));
      if e.notReady {
        return Ok(id);
      }
      r := EnqueueSendMessage(id, e.queued);
    }

    method CreateRequestFromPublEvent(d: PublRequest) returns (r: Reply<nat>)
      modifies this`requests
      ensures (View(), r) == CreateFromPublEvent(old(View()), d)
    {
      hide CreatePubl;
      if !d.partnerIsPubl {
        return Rejected(UnknownPartner);
      }
      if d.account.None? {
        return Rejected(NotFound);
      }
      if d.event.NoDefinition? {
        return Rejected(EventNotFound);
      }
      if d.event.Inactive? {
        return Rejected(EventInactive);
      }
      if d.phone == "" {
        return Rejected(NoRecipientPhone);
      }
      r := CreateAcceptedPublEventRequest(PublInput(d.account.value, d.key, d.eventKey, d.phone, None, d.schedule,
        d.now, d.event.refusal, d.event.notReady, d.queued));
    }

    /** One transaction for all rows and reservations, then one job per row. */
    method CreateManualSmsRequests(owner: string, batchId: string, phones: seq<string>, usageAt: int, queued: nat)
      returns (r: Reply<nat>)
      modifies this`requests, this`ledger
      ensures (View(), r) == CreateManualSms(old(View()), owner, batchId, phones, usageAt, queued)
    {
      hide FindByKey, AssertCanReserve, BatchKey;
      if phones == [] {
        return Rejected(NoRecipients);
      }
      var refusal := AssertCanReserve(View(), owner, |phones|, usageAt);
      if refusal.Some? {
        return Rejected(refusal.value);
      }
      // What the transaction has written so far; nothing of it is kept if it is aborted.
      var rows, entries := requests, ledger;
      for index := 0 to |phones|
        invariant requests == old(requests) && ledger == old(ledger)
        invariant |rows| == |old(requests)| + index
        invariant InsertManualSms(old(View()), owner, batchId, phones, 0, usageAt)
               == InsertManualSms(old(View()).(requests := rows, ledger := entries), owner, batchId, phones, index,
                 usageAt)
      {
        var key := BatchKey(batchId, index);
        if FindByKey(rows, owner, key).Some? {
          return Rejected(KeyTaken);
        }
        entries := entries + [LedgerRow(owner, 1, usageAt, ForRequest(|rows|))];
        rows := rows + [Request(owner, key, "MANUAL_SMS_SEND", phones[index], SMS, None, NEW_RUN)];
      }
      requests, ledger := rows, entries;
      ghost var committed := View();
      var first := |rows| - |phones|;
      ghost var end := first + (if queued < |phones| then queued else |phones|);
      for id := first to |rows|
        invariant |requests| == |rows| && ledger == entries && id <= end
        invariant EnqueueFrom(View(), id, end) == EnqueueFrom(committed, first, end)
      {
        var added := EnqueueSendMessage(id, id - first < queued);
        if added.NotQueued? {
          return NotQueued;
        }
      }
      r := Ok(|phones|);
    }

    method CreateBulkSmsCampaign(owner: string, recipients: nat, usageAt: int) returns (r: Reply<nat>)
      modifies this`campaigns, this`ledger
      ensures (View(), r) == CreateBulkSms(old(View()), owner, recipients, usageAt)
    {
      hide AssertCanReserve;
      if recipients == 0 {
        return Rejected(NoRecipients);
      }
      var refusal := AssertCanReserve(View(), owner, recipients, usageAt);
      if refusal.Some? {
        return Rejected(refusal.value);
      }
      var id := |campaigns|;
      campaigns := campaigns + [Campaign(owner, recipients)];
      ReserveUsage(LedgerRow(owner, recipients, usageAt, ForCampaign(id)));
      r := Ok(id);
    }

    method RetryRequest(owner: string, id: nat, key: string, event: EventState, now: int, queued: bool)
      returns (r: Reply<nat>)
      modifies this`requests
      ensures (View(), r) == RetryForUser(old(View()), owner, id, key, event, now, queued)
    {
      hide FindByKey, LatestRetry, CreatePubl;
      if id >= |requests| || requests[id].owner != owner {
        return Rejected(NotFound);
      }
      var requested := requests[id];
      if !FailedStatus(requested.run.status) {
        return Rejected(NotRetryable);
      }
      if requested.channel != ALIMTALK {
        return Rejected(WrongChannel);
      }
      var root := RootOf(requests, id);
      if root >= |requests| || requests[root].owner != owner {
        return Rejected(NotFound);
      }
      var latest := LatestRetry(requests, root);
      if latest.Some? && !FailedStatus(requests[latest.value].run.status) {
        return Rejected(AlreadyRetried);
      }
      match event
      case Inactive =>
        r := Rejected(EventInactive);
      case Active(refusal, notReady) =>
        r := CreateAcceptedPublEventRequest(PublInput(owner, key, requested.eventKey, requested.phone, Some(root),
          AtOnce, now, refusal, notReady, queued));
      case NoDefinition =>
        if FindByKey(requests, owner, key).Some? {
          r := Rejected(KeyTaken);
        } else {
          var newId := InsertRequest(Request(owner, key, requested.eventKey, requested.phone, ALIMTALK, Some(root),
            NEW_RUN));
          r := EnqueueSendMessage(newId, queued);
        }
    }

    // ---------------------------------------------------------------- the worker

    method WriteRun(id: nat, run: Run)
      requires id < |requests|
      modifies this`requests
      ensures View() == UpdateRun(old(View()), id, run)
    {
      requests := requests[id := requests[id].(run := run)];
    }

    /** `processMessage`: marks the row, sends, logs, and rethrows what went wrong. */
    method ProcessMessageJob(id: nat, outcome: Outcome, f: Faults) returns (thrown: Option<Error>)
      requires id < |requests|
      modifies this`requests
      ensures var (run, error) := ProcessMessage(old(requests[id]).run, outcome, f);
              View() == UpdateRun(old(View()), id, run) && thrown == error
    {
      hide RowExists;
      if Terminal(requests[id].run.status) {
        return None;
      }
      if f.start {
        return Some(Other);
      }
      var run := requests[id].run;
      WriteRun(id, run.(status := PROCESSING, attemptCount := run.attemptCount + 1));
      var n := requests[id].run.attemptCount;
      var caught: Option<Error> := None;
      match outcome {
        case Throws(e) =>
          caught := Some(e);
        case TemplateNotApproved =>
          if f.notApproved {
            caught := Some(Other);
          } else {
            WriteRun(id, requests[id].run.(status := SEND_FAILED));
            caught := Some(Unrecoverable);
          }
        case Accepts =>
          WriteRun(id, requests[id].run.(sends := requests[id].run.sends + 1));
          if f.row || RowExists(requests[id].run.attempts, n) {
            caught := Some(Other);
          } else {
            WriteRun(id, requests[id].run.(attempts := requests[id].run.attempts + [AttemptRow(n, None)]));
            if f.sent {
              caught := Some(Other);
            } else {
              WriteRun(id, requests[id].run.(status := SENT_TO_PROVIDER));
            }
          }
      }
      assert (requests[id].run, caught)
        == TryBlock(run.(status := PROCESSING, attemptCount := run.attemptCount + 1), n, outcome, f);
      if caught.None? {
        return None;
      }
      var e := caught.value;
      if f.errorRow || RowExists(requests[id].run.attempts, n) {
        return Some(Other);
      }
      WriteRun(id, requests[id].run.(attempts := requests[id].run.attempts + [AttemptRow(n, Some(e))]));
      if IsRetryable(e) {
        return Some(e);
      }
      if f.failed {
        return Some(Other);
      }
      WriteRun(id, requests[id].run.(status := SEND_FAILED));
      return Some(Unrecoverable);
    }

    /** The queue counts a failed attempt, and the `failed` handler runs when it was the last one. */
    method OnFailed(id: nat, error: Error, f: Faults)
      requires id < |requests|
      modifies this`requests
      ensures View() == UpdateRun(old(View()), id, AfterAttempt(old(requests[id]).run, Some(error), f))
    {
      WriteRun(id, requests[id].run.(attemptsMade := requests[id].run.attemptsMade + 1));
      if error == Unrecoverable || requests[id].run.attemptsMade >= ATTEMPTS {
        WriteRun(id, requests[id].run.(phase := Failed));
        if !f.handlerStatus {
          if !Terminal(requests[id].run.status) {
            WriteRun(id, requests[id].run.(status := DEAD));
          }
          if !f.handlerLetter {
            WriteRun(id, requests[id].run.(deadLetters := requests[id].run.deadLetters + 1));
          }
        }
      }
    }

    /** The queue runs the job once more. */
    method RunAttempt(id: nat, outcome: Outcome, f: Faults)
      requires id < |requests|
      modifies this`requests
      ensures View() == Next(old(View()), AttemptAction(id, outcome, f))
    {
      hide ProcessMessage, AfterAttempt;
      var before := requests[id].run;
      if before.phase != Queued {
        assert requests == requests[id := requests[id].(run := before)];
        return;
      }
      var thrown := ProcessMessageJob(id, outcome, f);
      if thrown.None? {
        JobCompletes(requests[id].run, f);
        WriteRun(id, requests[id].run.(phase := Completed));
      } else {
        OnFailed(id, thrown.value, f);
      }
    }
  }

  lemma JobCompletes(r: Run, f: Faults)
    ensures AfterAttempt(r, None, f) == r.(phase := Completed)
  {}
}
