/** Retry families: a failed request and its retries, over any interleaving of user
    retries, worker steps and everything else. */
module RetryFamilies {
  import opened Wrappers
  import opened MessageRun
  import opened Store
  import opened StoreRuns

  /** Every retry points at an earlier root that is not itself a retry, is in a failed
      status, and has the same owner, recipient and event. */
  predicate Flat(requests: seq<Request>) {
    forall i | 0 <= i < |requests| && requests[i].retryOf.Some? ::
      var r := requests[i].retryOf.value;
      && r < i
      && requests[r].retryOf.None?
      && FailedStatus(requests[r].run.status)
      && requests[r].channel == ALIMTALK
      && SameTarget(requests[r], requests[i])
  }

  predicate SameTarget(a: Request, b: Request) {
    a.owner == b.owner && a.phone == b.phone && a.eventKey == b.eventKey
  }

  /** Of two retries of the same root, the older one has failed. */
  predicate OlderFailed(requests: seq<Request>) {
    forall i, j | 0 <= i < j < |requests| && requests[i].retryOf.Some? && requests[i].retryOf == requests[j].retryOf ::
      FailedStatus(requests[i].run.status)
  }

  /** Two rows belong to the same family when they have the same root. */
  predicate SameFamily(requests: seq<Request>, i: nat, j: nat)
    requires i < |requests| && j < |requests|
  {
    RootOf(requests, i) == RootOf(requests, j)
  }

  /** Rows that are not retries of anything can be added freely. */
  lemma AppendingRoots(before: seq<Request>, after: seq<Request>)
    requires Flat(before) && OlderFailed(before) && Appends(before, after)
    requires forall i | |before| <= i < |after| :: after[i].retryOf == None
    ensures Flat(after) && OlderFailed(after)
  {}

  lemma RunChangeKeepsFamilies(before: seq<Request>, after: seq<Request>, a: Action)
    requires Flat(before) && OlderFailed(before) && RunChange(before, after, a)
    ensures Flat(after) && OlderFailed(after)
  {
    hide Attempt, Environment;
    forall i | 0 <= i < |before| && FailedStatus(before[i].run.status) ensures FailedStatus(after[i].run.status) {
      if a.AttemptAction? { TerminalIsNeverLeft(before[i].run, a.outcome, a.faults, CANCELED); }
      if a.EnvironmentAction? { TerminalIsNeverLeft(before[i].run, Accepts, NO_FAULTS, a.status); }
    }
  }

  /** Adding a retry of a root all of whose retries have failed. */
  lemma AppendingRetry(before: seq<Request>, after: seq<Request>, root: nat)
    requires Flat(before) && OlderFailed(before)
    requires |after| == |before| + 1 && after[..|before|] == before
    requires root < |before| && after[|before|].retryOf == Some(root)
    requires before[root].retryOf == None && FailedStatus(before[root].run.status) && before[root].channel == ALIMTALK
    requires SameTarget(before[root], after[|before|])
    requires forall i | 0 <= i < |before| && before[i].retryOf == Some(root) :: FailedStatus(before[i].run.status)
    ensures Flat(after) && OlderFailed(after)
  {
    assert forall i | 0 <= i < |before| :: after[i] == before[i];
  }

  /** When the newest retry has failed, all retries of the root have. */
  lemma AllRetriesFailed(requests: seq<Request>, root: nat)
    requires OlderFailed(requests)
    requires var latest := LatestRetry(requests, root);
             latest.Some? ==> FailedStatus(requests[latest.value].run.status)
    ensures forall i | 0 <= i < |requests| && requests[i].retryOf == Some(root) :: FailedStatus(requests[i].run.status)
  {
    hide LatestRetry;
    var latest := LatestRetry(requests, root);
    forall i | 0 <= i < |requests| && requests[i].retryOf == Some(root) ensures FailedStatus(requests[i].run.status) {
      assert i <= latest.value;
    }
  }

  lemma RetryKeepsFamilies(db: Db, owner: string, id: nat, key: string, event: EventState, now: int,
                           queued: bool)
    requires Flat(db.requests) && OlderFailed(db.requests)
    ensures var after := RetryForUser(db, owner, id, key, event, now, queued).0.requests;
            Flat(after) && OlderFailed(after)
  {
    hide FindByKey, LatestRetry;
    var after := RetryForUser(db, owner, id, key, event, now, queued).0.requests;
    if after != db.requests {
      var root := RootOf(db.requests, id);
      AllRetriesFailed(db.requests, root);
      AppendingRetry(db.requests, after, root);
    }
  }

  lemma StepKeepsFamilies(db: Db, a: Action)
    requires Flat(db.requests) && OlderFailed(db.requests)
    ensures Flat(Next(db, a).requests) && OlderFailed(Next(db, a).requests)
  {
    hide Flat, OlderFailed, RetryForUser, CreateManualSms, FindByKey, AssertCanReserve, Attempt, Environment;
    NextShape(db, a);
    match a
    case RetryAction(owner, id, key, event, now, queued) =>
      RetryKeepsFamilies(db, owner, id, key, event, now, queued);
    case AttemptAction(_, _, _) => RunChangeKeepsFamilies(db.requests, Next(db, a).requests, a);
    case EnvironmentAction(_, _) => RunChangeKeepsFamilies(db.requests, Next(db, a).requests, a);
    case ManualSmsAction(owner, batchId, phones, usageAt, queued) =>
      ManualSmsShape(db, owner, batchId, phones, usageAt, queued);
      AppendingRoots(db.requests, Next(db, a).requests);
    case _ => AppendingRoots(db.requests, Next(db, a).requests);
  }

  lemma {:induction false} FamiliesHold(db: Db, actions: seq<Action>)
    requires Initial(db)
    ensures Flat(After(db, actions).requests) && OlderFailed(After(db, actions).requests)
  {
    hide Next, Flat, OlderFailed;
    if actions != [] {
      var n := |actions| - 1;
      FamiliesHold(db, actions[..n]);
      StepKeepsFamilies(After(db, actions[..n]), actions[n]);
    } else {
      NoFamilies(db.requests);
    }
  }

  lemma NoFamilies(requests: seq<Request>)
    requires requests == []
    ensures Flat(requests) && OlderFailed(requests)
  {}

  /** Families are flat, share their target, and have at most one member that has not failed:
      of any two members of a family one is in a failed status. */
  lemma AtMostOneIsNotFailed(db: Db, actions: seq<Action>, i: nat, j: nat)
    requires Initial(db)
    requires i < j < |After(db, actions).requests| && SameFamily(After(db, actions).requests, i, j)
    ensures var requests := After(db, actions).requests;
            && (FailedStatus(requests[i].run.status) || FailedStatus(requests[j].run.status))
            && SameTarget(requests[i], requests[j])
            && RootOf(requests, i) < |requests|
            && requests[RootOf(requests, i)].retryOf == None
            && FailedStatus(requests[RootOf(requests, i)].run.status)
  {
    hide After;
    FamiliesHold(db, actions);
  }

  // ------------------------------------------------- exactly when a retry is accepted

  /** The statuses that a user may retry. */
  predicate Retryable(s: Status) {
    s in {SEND_FAILED, DELIVERY_FAILED, DEAD}
  }

  /** A retry of the same root that has not failed. */
  predicate OtherRetryRuns(requests: seq<Request>, root: nat) {
    exists j | 0 <= j < |requests| :: requests[j].retryOf == Some(root) && !Retryable(requests[j].run.status)
  }

  /** The first reason to refuse a retry, if there is one. */
  function RetryRefusal(requests: seq<Request>, owner: string, id: nat, event: EventState): Option<Failure> {
    if id >= |requests| || requests[id].owner != owner then Some(NotFound)
    else if !Retryable(requests[id].run.status) then Some(NotRetryable)
    else if requests[id].channel != ALIMTALK then Some(WrongChannel)
    else if OtherRetryRuns(requests, RootOf(requests, id)) then Some(AlreadyRetried)
    else if event.Inactive? then Some(EventInactive)
    else None
  }

  /** The row that a retry adds. */
  function RetryRow(requests: seq<Request>, owner: string, id: nat, key: string, event: EventState, queued: bool)
    : Request
    requires id < |requests|
  {
    var run :=
      if event.Active? && event.notReady then NEW_RUN.(status := SEND_FAILED)
      else if queued then NEW_RUN.(phase := Queued)
      else NEW_RUN;
    var root := if requests[id].retryOf.Some? then requests[id].retryOf.value else id;
    Request(owner, key, requests[id].eventKey, requests[id].phone, ALIMTALK, Some(root), run)
  }

  /** When no retry of the root runs, its newest retry has failed, and the other way round. */
  lemma NewestRetryTells(requests: seq<Request>, root: nat)
    requires OlderFailed(requests)
    ensures var latest := LatestRetry(requests, root);
            OtherRetryRuns(requests, root) <==> latest.Some? && !Retryable(requests[latest.value].run.status)
  {
    hide LatestRetry;
    var latest := LatestRetry(requests, root);
    if latest.Some? && Retryable(requests[latest.value].run.status) {
      AllRetriesFailed(requests, root);
    }
  }

  /** In every run, a retry is accepted exactly when the request is the owner's, has failed, is for
      AlimTalk, no other retry of its root has not failed, the key is new, and the event is
      unknown or active without a refusal. It then adds one row with the owner, recipient and
      event of the request, below the root of the family; otherwise nothing changes, and the
      reply gives the first reason, or the row that has the key. */
  lemma RetryAcceptedIff(start: Db, actions: seq<Action>, owner: string, id: nat, key: string, event: EventState,
                         now: int, queued: bool)
    requires Initial(start)
    ensures var db := After(start, actions);
            var (after, reply) := RetryForUser(db, owner, id, key, event, now, queued);
            var refusal := RetryRefusal(db.requests, owner, id, event);
            var taken := FindByKey(db.requests, owner, key);
            if refusal.Some? then after == db && reply == Rejected(refusal.value)
            else if taken.Some? then
              after == db && reply == (if event.Active? then Ok(taken.value) else Rejected(KeyTaken))
            else if event.Active? && event.refusal.Some? then after == db && reply == Rejected(event.refusal.value)
            else
              && after == db.(requests := db.requests + [RetryRow(db.requests, owner, id, key, event, queued)])
              && (reply.NotQueued? <==> !queued && !(event.Active? && event.notReady))
              && (!reply.NotQueued? ==> reply == Ok(|db.requests|))
  {
    hide After, FindByKey, LatestRetry, OlderFailed, OtherRetryRuns;
    var db := After(start, actions);
    FamiliesHold(start, actions);
    if id < |db.requests| { NewestRetryTells(db.requests, RootOf(db.requests, id)); }
  }
}
