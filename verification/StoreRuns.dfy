/** What every run of the backend keeps: rows and their identity, the bounds of the jobs, and
    the properties of the jobs that hold exactly under certain faults. */
module StoreRuns {
  import opened Wrappers
  import opened MessageRun
  import opened Store

  // ------------------------------------------------------ the shape of a step

  /** Everything about a row except its job. */
  predicate SameIdentity(r: Request, q: Request) {
    q == r.(run := q.run)
  }

  predicate FreshRun(r: Run) {
    r == NEW_RUN || r == NEW_RUN.(phase := Queued) || r == NEW_RUN.(status := SEND_FAILED)
  }

  /** Rows are only added, at the end and with a fresh job. */
  predicate Appends(before: seq<Request>, after: seq<Request>) {
    && |before| <= |after|
    && (forall i | 0 <= i < |before| :: after[i] == before[i])
    && (forall i | |before| <= i < |after| :: FreshRun(after[i].run))
  }

  predicate RunChange(before: seq<Request>, after: seq<Request>, a: Action) {
    && |after| == |before|
    && (forall i | 0 <= i < |before| ::
          && SameIdentity(before[i], after[i])
          && (after[i].run == before[i].run
              || (a.AttemptAction? && a.id == i && after[i].run == Attempt(before[i].run, a.outcome, a.faults))
              || (a.EnvironmentAction? && a.id == i && after[i].run == Environment(before[i].run, a.status))))
  }

  lemma {:induction false} InsertedManualSms(db: Db, owner: string, batchId: string, phones: seq<string>, index: nat,
                                             usageAt: int)
    requires index <= |phones|
    ensures match InsertManualSms(db, owner, batchId, phones, index, usageAt)
            case None => true
            case Some(r) =>
              && r.users == db.users && r.campaigns == db.campaigns
              && |r.requests| == |db.requests| + |phones| - index
              && (forall i | 0 <= i < |db.requests| :: r.requests[i] == db.requests[i])
              && (forall i | |db.requests| <= i < |r.requests| ::
                    var k := index + i - |db.requests|;
                    r.requests[i] == Request(owner, BatchKey(batchId, k), "MANUAL_SMS_SEND", phones[k], SMS, None,
                      NEW_RUN))
    decreases |phones| - index
  {
    hide FindByKey, BatchKey;
    if index < |phones| && FindByKey(db.requests, owner, BatchKey(batchId, index)).None? {
      var inserted := Insert(db,
        Request(owner, BatchKey(batchId, index), "MANUAL_SMS_SEND", phones[index], SMS, None, NEW_RUN));
      var reserved := Reserve(inserted, LedgerRow(owner, 1, usageAt, ForRequest(|db.requests|)));
      InsertedManualSms(reserved, owner, batchId, phones, index + 1, usageAt);
    }
  }

  lemma {:induction false} EnqueuedFrom(db: Db, id: nat, end: nat)
    requires id <= end <= |db.requests|
    ensures var r := EnqueueFrom(db, id, end);
            && r == db.(requests := r.requests)
            && (forall i | 0 <= i < id || end <= i < |db.requests| :: r.requests[i] == db.requests[i])
            && (forall i | id <= i < end :: r.requests[i] == db.requests[i].(run := Enqueue(db.requests[i].run)))
    decreases end - id
  {
    if id < end {
      EnqueuedFrom(EnqueueAt(db, id), id + 1, end);
    }
  }

  lemma ManualSmsShape(db: Db, owner: string, batchId: string, phones: seq<string>, usageAt: int, queued: nat)
    ensures var after := CreateManualSms(db, owner, batchId, phones, usageAt, queued).0;
            && after.users == db.users && after.campaigns == db.campaigns
            && Appends(db.requests, after.requests)
            && (forall i | |db.requests| <= i < |after.requests| ::
                  after.requests[i].retryOf == None && after.requests[i].channel == SMS
                    && after.requests[i].owner == owner)
  {
    hide FindByKey, BatchKey, AssertCanReserve;
    if phones != [] && AssertCanReserve(db, owner, |phones|, usageAt).None? {
      InsertedManualSms(db, owner, batchId, phones, 0, usageAt);
      match InsertManualSms(db, owner, batchId, phones, 0, usageAt)
      case None =>
      case Some(committed) =>
        EnqueuedFrom(committed, |db.requests|, |db.requests| + (if queued < |phones| then queued else |phones|));
    }
  }

  /** The rows of a batch after the jobs of those up to `end`. */
  lemma BatchRows(db: Db, owner: string, batchId: string, phones: seq<string>, usageAt: int, end: nat, k: nat)
    requires InsertManualSms(db, owner, batchId, phones, 0, usageAt).Some?
    requires |db.requests| <= end <= |db.requests| + |phones| && k < |phones|
    ensures var committed := InsertManualSms(db, owner, batchId, phones, 0, usageAt).value;
            EnqueueFrom(committed, |db.requests|, end).requests[|db.requests| + k]
              == Request(owner, BatchKey(batchId, k), "MANUAL_SMS_SEND", phones[k], SMS, None,
                if |db.requests| + k < end then NEW_RUN.(phase := Queued) else NEW_RUN)
  {
    hide FindByKey, BatchKey, InsertManualSms, EnqueueFrom;
    InsertedManualSms(db, owner, batchId, phones, 0, usageAt);
    var committed := InsertManualSms(db, owner, batchId, phones, 0, usageAt).value;
    EnqueuedFrom(committed, |db.requests|, end);
    assert 0 + (|db.requests| + k) - |db.requests| == k;
    assert committed.requests[|db.requests| + k]
        == Request(owner, BatchKey(batchId, k), "MANUAL_SMS_SEND", phones[k], SMS, None, NEW_RUN);
  }

  /** A batch that is stored has one row per phone, in order, each with its own key; those up to
      where the queue fails, all of them if the batch is accepted, have a waiting job. */
  lemma ManualBatchReachesEveryPhone(db: Db, owner: string, batchId: string, phones: seq<string>, usageAt: int,
                                     queued: nat)
    requires !CreateManualSms(db, owner, batchId, phones, usageAt, queued).1.Rejected?
    ensures var (after, reply) := CreateManualSms(db, owner, batchId, phones, usageAt, queued);
            && (if |phones| <= queued then reply == Ok(|phones|) else reply == NotQueued)
            && |after.requests| == |db.requests| + |phones|
            && forall k | 0 <= k < |phones| ::
                 after.requests[|db.requests| + k]
                 == Request(owner, BatchKey(batchId, k), "MANUAL_SMS_SEND", phones[k], SMS, None,
                   if k < queued then NEW_RUN.(phase := Queued) else NEW_RUN)
  {
    hide FindByKey, BatchKey, AssertCanReserve, InsertManualSms, EnqueueFrom;
    var after := CreateManualSms(db, owner, batchId, phones, usageAt, queued).0;
    var end := |db.requests| + (if queued < |phones| then queued else |phones|);
    forall k | 0 <= k < |phones|
      ensures after.requests[|db.requests| + k]
          == Request(owner, BatchKey(batchId, k), "MANUAL_SMS_SEND", phones[k], SMS, None,
            if k < queued then NEW_RUN.(phase := Queued) else NEW_RUN)
    {
      BatchRows(db, owner, batchId, phones, usageAt, end, k);
    }
  }

  /** A step adds rows or changes the job of one row; nothing else ever happens to a row. */
  lemma NextShape(db: Db, a: Action)
    ensures var after := Next(db, a).requests;
            if a.AttemptAction? || a.EnvironmentAction? then RunChange(db.requests, after, a)
                else Appends(db.requests, after)
  {
    hide AssertCanReserve, CreateManualSms, Attempt, Environment, FindByKey, LatestRetry;
    match a
    case ManualSmsAction(owner, batchId, phones, usageAt, queued) =>
      ManualSmsShape(db, owner, batchId, phones, usageAt, queued);
    case _ =>
  }

  lemma {:induction false} RowsPersist(db: Db, actions: seq<Action>)
    ensures |db.requests| <= |After(db, actions).requests|
    ensures forall i | 0 <= i < |db.requests| :: SameIdentity(db.requests[i], After(db, actions).requests[i])
  {
    hide Next;
    if actions != [] {
      var n := |actions| - 1;
      RowsPersist(db, actions[..n]);
      NextShape(After(db, actions[..n]), actions[n]);
    }
  }

  // -------------------------------------------------------------- the jobs

  ghost predicate OfEveryJob(db: Db, inv: Run -> bool) {
    forall i | 0 <= i < |db.requests| :: inv(db.requests[i].run)
  }

  lemma JobStepIsSound(r: Run, outcome: Outcome, f: Faults, s: Status)
    requires Bounded(r) && Concluded(r)
    ensures Bounded(Attempt(r, outcome, f)) && Concluded(Attempt(r, outcome, f))
    ensures Bounded(Environment(r, s)) && Concluded(Environment(r, s))
  {
    hide Attempt;
    AttemptKeepsBounds(r, outcome, f);
    AttemptConcludes(r, outcome, f);
  }

  lemma FreshRunIsSound(r: Run)
    requires FreshRun(r)
    ensures Bounded(r) && Concluded(r) && SentAtMostOnce(r) && RowsComplete(r) && Counted(r) && RetriedOnly(r)
        && LettersMatch(r)
  {}

  /** In every run, whatever writes fail: no request is attempted more than 8 times, the
      provider accepts it at most 8 times, and at least once if it is marked as sent, its
      attempt rows are numbered within its attempt count without repetition, it has at most
      one dead letter, a completed job leaves it sent or terminal, and DEAD takes 8 attempts. */
  lemma {:induction false} JobsStayBounded(db: Db, actions: seq<Action>)
    requires Initial(db)
    ensures OfEveryJob(After(db, actions), Bounded) && OfEveryJob(After(db, actions), Concluded)
  {
    hide Next, Attempt, Environment, Bounded, Concluded, FreshRun;
    if actions != [] {
      var n := |actions| - 1;
      var before, after := After(db, actions[..n]), After(db, actions);
      JobsStayBounded(db, actions[..n]);
      NextShape(before, actions[n]);
      forall i | 0 <= i < |after.requests| ensures Bounded(after.requests[i].run) && Concluded(after.requests[i].run) {
        if i < |before.requests| {
          var a := actions[n];
          if a.AttemptAction? { JobStepIsSound(before.requests[i].run, a.outcome, a.faults, CANCELED); }
          if a.EnvironmentAction? { JobStepIsSound(before.requests[i].run, Accepts, NO_FAULTS, a.status); }
        } else {
          FreshRunIsSound(after.requests[i].run);
        }
      }
    }
  }

  // ------------------------------------------- invariants under the faults of a run

  /** Fresh jobs have the property, the environment keeps it, and an attempt keeps it exactly when
      it meets the condition. */
  ghost predicate ExactFor(inv: Run -> bool, condition: (Run, Outcome, Faults) -> bool) {
    && (forall r | FreshRun(r) :: inv(r))
    && (forall r, s | inv(r) :: inv(Environment(r, s)))
    && (forall r, outcome, f | Bounded(r) && Concluded(r) && inv(r) ::
          inv(Attempt(r, outcome, f)) <==> condition(r, outcome, f))
  }

  /** The property holds of every job after each of the first `n` actions and before them. */
  ghost predicate Throughout(db: Db, actions: seq<Action>, n: nat, inv: Run -> bool)
    requires n <= |actions|
  {
    forall k | 0 <= k <= n :: OfEveryJob(After(db, actions[..k]), inv)
  }

  /** An action that attempts a job that there is meets the condition. */
  predicate Meets(db: Db, a: Action, condition: (Run, Outcome, Faults) -> bool) {
    a.AttemptAction? && a.id < |db.requests| ==> condition(db.requests[a.id].run, a.outcome, a.faults)
  }

  ghost predicate AllMeet(db: Db, actions: seq<Action>, n: nat, condition: (Run, Outcome, Faults) -> bool)
    requires n <= |actions|
  {
    forall k | 0 <= k < n :: Meets(After(db, actions[..k]), actions[k], condition)
  }

  lemma StepIsExact(db: Db, a: Action, inv: Run -> bool, condition: (Run, Outcome, Faults) -> bool)
    requires ExactFor(inv, condition) && OfEveryJob(db, inv)
    requires OfEveryJob(db, Bounded) && OfEveryJob(db, Concluded)
    ensures OfEveryJob(Next(db, a), inv) <==> Meets(db, a, condition)
  {
    hide Attempt, Environment, Bounded, Concluded, FreshRun, Create, CreateFromPublEvent, CreateManualSms;
    hide CreateBulkSms, RetryForUser;
    NextShape(db, a);
    if a.AttemptAction? && a.id < |db.requests| {
      var r := db.requests[a.id].run;
      assert Next(db, a).requests[a.id].run == Attempt(r, a.outcome, a.faults);
      assert inv(Attempt(r, a.outcome, a.faults)) <==> condition(r, a.outcome, a.faults);
    }
  }

  /** In every run the property holds throughout exactly when every attempt meets the condition. */
  lemma {:induction false} HoldsIffAllMeet(db: Db, actions: seq<Action>, n: nat,
                                           inv: Run -> bool, condition: (Run, Outcome, Faults) -> bool)
    requires Initial(db) && ExactFor(inv, condition) && n <= |actions|
    ensures Throughout(db, actions, n, inv) <==> AllMeet(db, actions, n, condition)
  {
    hide Next, ExactFor, Meets, OfEveryJob, After;
    if n == 0 {
      NoJobs(db, actions, inv);
    } else {
      HoldsIffAllMeet(db, actions, n - 1, inv, condition);
      NextOfPrefix(db, actions, n - 1);
      JobsStayBounded(db, actions[..n - 1]);
      if Throughout(db, actions, n - 1, inv) {
        StepIsExact(After(db, actions[..n - 1]), actions[n - 1], inv, condition);
      }
    }
  }

  lemma NoJobs(db: Db, actions: seq<Action>, inv: Run -> bool)
    requires Initial(db)
    ensures OfEveryJob(After(db, actions[..0]), inv)
  {}

  lemma NextOfPrefix(db: Db, actions: seq<Action>, n: nat)
    requires n < |actions|
    ensures After(db, actions[..n + 1]) == Next(After(db, actions[..n]), actions[n])
  {
    hide Next;
    assert actions[..n + 1][..n] == actions[..n];
  }

  lemma AtTheEnd(db: Db, actions: seq<Action>, inv: Run -> bool)
    requires Throughout(db, actions, |actions|, inv)
    ensures OfEveryJob(After(db, actions), inv)
  {
    hide After;
    assert actions[..|actions|] == actions;
  }

  /** The provider accepts every message at most once, and only in the attempt that completes
      its job, exactly when no accepted send loses the writes after it. */
  lemma SendsHappenOnce(db: Db, actions: seq<Action>)
    requires Initial(db)
    ensures Throughout(db, actions, |actions|, SentAtMostOnce) <==> AllMeet(db, actions, |actions|, KeepsSend)
  {
    hide Throughout, AllMeet, Attempt, Bounded, KeepsSend, SentAtMostOnce;
    forall r | FreshRun(r) ensures SentAtMostOnce(r) { FreshRunIsSound(r); }
    forall r, s | SentAtMostOnce(r) ensures SentAtMostOnce(Environment(r, s)) { EnvironmentKeeps(r, s); }
    forall r, outcome, f | Bounded(r) && SentAtMostOnce(r)
      ensures SentAtMostOnce(Attempt(r, outcome, f)) <==> KeepsSend(r, outcome, f)
    {
      AttemptSendsOnce(r, outcome, f);
    }
    HoldsIffAllMeet(db, actions, |actions|, SentAtMostOnce, KeepsSend);
  }

  /** Attempt rows are numbered exactly 1 to the attempt count throughout exactly when every
      attempt that starts gets its row. */
  lemma RowsStayComplete(db: Db, actions: seq<Action>)
    requires Initial(db)
    ensures Throughout(db, actions, |actions|, RowsComplete) <==> AllMeet(db, actions, |actions|, KeepsRow)
  {
    hide Throughout, AllMeet, Attempt, Bounded, KeepsRow, RowsComplete;
    forall r | FreshRun(r) ensures RowsComplete(r) { FreshRunIsSound(r); }
    forall r, s | RowsComplete(r) ensures RowsComplete(Environment(r, s)) { EnvironmentKeeps(r, s); }
    forall r, outcome, f | Bounded(r) && RowsComplete(r)
      ensures RowsComplete(Attempt(r, outcome, f)) <==> KeepsRow(r, outcome, f)
    {
      AttemptKeepsRows(r, outcome, f);
    }
    HoldsIffAllMeet(db, actions, |actions|, RowsComplete, KeepsRow);
  }

  /** The attempt count of an unsettled request is the number of its failed attempts throughout
      exactly when the first write of every attempt succeeds. */
  lemma AttemptsAreCounted(db: Db, actions: seq<Action>)
    requires Initial(db)
    ensures Throughout(db, actions, |actions|, Counted) <==> AllMeet(db, actions, |actions|, KeepsCount)
  {
    hide Throughout, AllMeet, Attempt, Bounded, Concluded, KeepsCount, Counted;
    forall r | FreshRun(r) ensures Counted(r) { FreshRunIsSound(r); }
    forall r, s | Counted(r) ensures Counted(Environment(r, s)) { EnvironmentKeeps(r, s); }
    forall r, outcome, f | Bounded(r) && Concluded(r) && Counted(r)
      ensures Counted(Attempt(r, outcome, f)) <==> KeepsCount(r, outcome, f)
    {
      AttemptIsCounted(r, outcome, f);
    }
    HoldsIffAllMeet(db, actions, |actions|, Counted, KeepsCount);
  }

  /** The log of an unsettled request holds only errors that are retried, throughout, exactly
      when no attempt logs a success or a final error without settling the request. */
  lemma OnlyRetriedErrors(db: Db, actions: seq<Action>)
    requires Initial(db)
    ensures Throughout(db, actions, |actions|, RetriedOnly) <==> AllMeet(db, actions, |actions|, KeepsRetried)
  {
    hide Throughout, AllMeet, Attempt, Bounded, Concluded, KeepsRetried, RetriedOnly;
    forall r | FreshRun(r) ensures RetriedOnly(r) { FreshRunIsSound(r); }
    forall r, s | RetriedOnly(r) ensures RetriedOnly(Environment(r, s)) { EnvironmentKeeps(r, s); }
    forall r, outcome, f | Bounded(r) && Concluded(r) && RetriedOnly(r)
      ensures RetriedOnly(Attempt(r, outcome, f)) <==> KeepsRetried(r, outcome, f)
    {
      AttemptKeepsRetried(r, outcome, f);
    }
    HoldsIffAllMeet(db, actions, |actions|, RetriedOnly, KeepsRetried);
  }

  /** There is a dead letter exactly when the job has failed, and then a user may send the request
      again, throughout, exactly when both writes of the `failed` handler succeed whenever it runs. */
  lemma LettersStayMatched(db: Db, actions: seq<Action>)
    requires Initial(db)
    ensures Throughout(db, actions, |actions|, LettersMatch) <==> AllMeet(db, actions, |actions|, KeepsLetter)
  {
    hide Throughout, AllMeet, Attempt, Bounded, KeepsLetter, LettersMatch;
    forall r | FreshRun(r) ensures LettersMatch(r) { FreshRunIsSound(r); }
    forall r, s | LettersMatch(r) ensures LettersMatch(Environment(r, s)) { EnvironmentKeeps(r, s); }
    forall r, outcome, f | Bounded(r) && LettersMatch(r)
      ensures LettersMatch(Attempt(r, outcome, f)) <==> KeepsLetter(r, outcome, f)
    {
      AttemptWritesLetter(r, outcome, f);
    }
    HoldsIffAllMeet(db, actions, |actions|, LettersMatch, KeepsLetter);
  }

  /** Unless the environment touches it, a request has one of the statuses that the services and
      the worker set themselves. */
  lemma {:induction false} OwnStatuses(db: Db, actions: seq<Action>, i: nat)
    requires Initial(db) && i < |After(db, actions).requests|
    requires forall k | 0 <= k < |actions| :: actions[k].EnvironmentAction? ==> actions[k].id != i
    ensures After(db, actions).requests[i].run.status in {ACCEPTED, PROCESSING, SENT_TO_PROVIDER, SEND_FAILED, DEAD}
  {
    hide Next, Attempt, Environment, Bounded, Concluded;
    if actions != [] {
      var n := |actions| - 1;
      var before := After(db, actions[..n]).requests;
      NextShape(After(db, actions[..n]), actions[n]);
      if i < |before| {
        OwnStatuses(db, actions[..n], i);
        JobsStayBounded(db, actions[..n]);
        if actions[n].AttemptAction? {
          AttemptLeaves(before[i].run, actions[n].outcome, actions[n].faults);
        }
      }
    }
  }

  lemma EnvironmentKeeps(r: Run, s: Status)
    ensures SentAtMostOnce(r) ==> SentAtMostOnce(Environment(r, s))
    ensures RowsComplete(r) ==> RowsComplete(Environment(r, s))
    ensures Counted(r) ==> Counted(Environment(r, s))
    ensures RetriedOnly(r) ==> RetriedOnly(Environment(r, s))
    ensures LettersMatch(r) ==> LettersMatch(Environment(r, s))
  {}

  // ------------------------------------------------------------ jobs that are lost

  /** A request without a job is terminal. */
  predicate HasJob(r: Run) {
    r.phase == NoJob ==> Terminal(r.status)
  }

  /** The call does not end with a row whose job the queue did not take. */
  predicate Queues(db: Db, a: Action) {
    match a
    case CreateAction(e) => !Create(db, e).1.NotQueued?
    case PublAction(d) => !CreateFromPublEvent(db, d).1.NotQueued?
    case ManualSmsAction(owner, batchId, phones, usageAt, queued) =>
      !CreateManualSms(db, owner, batchId, phones, usageAt, queued).1.NotQueued?
    case RetryAction(owner, id, key, event, now, queued) =>
      !RetryForUser(db, owner, id, key, event, now, queued).1.NotQueued?
    case _ => true
  }

  /** The jobs of the rows that a batch adds. */
  lemma ManualSmsQueues(db: Db, owner: string, batchId: string, phones: seq<string>, usageAt: int, queued: nat)
    ensures var (after, reply) := CreateManualSms(db, owner, batchId, phones, usageAt, queued);
            && (forall i | |db.requests| <= i < |after.requests| ::
                  after.requests[i].run == if i < |db.requests| + queued then NEW_RUN.(phase := Queued) else NEW_RUN)
            && (reply.NotQueued? <==> |db.requests| + queued < |after.requests|)
  {
    hide FindByKey, AssertCanReserve, BatchKey, InsertManualSms, EnqueueFrom;
    var (after, reply) := CreateManualSms(db, owner, batchId, phones, usageAt, queued);
    if !reply.Rejected? {
      ManualBatchReachesEveryPhone(db, owner, batchId, phones, usageAt, queued);
      forall i | |db.requests| <= i < |after.requests|
        ensures after.requests[i].run == if i < |db.requests| + queued then NEW_RUN.(phase := Queued) else NEW_RUN
      {
        var k := i - |db.requests|;
        assert after.requests[|db.requests| + k].phone == phones[k];
      }
    }
  }

  /** A step that adds one row leaves it without a job exactly when the queue did not take it. */
  lemma SingleRowQueues(db: Db, a: Action)
    requires a.CreateAction? || a.PublAction? || a.RetryAction?
    ensures var after := Next(db, a).requests;
            && |after| <= |db.requests| + 1
            && (Queues(db, a) <==> (|after| == |db.requests| + 1 ==> HasJob(after[|db.requests|].run)))
  {
    hide FindByKey, AssertCanReserve, LatestRetry;
  }

  lemma StepQueuesIff(db: Db, a: Action)
    requires OfEveryJob(db, HasJob)
    ensures OfEveryJob(Next(db, a), HasJob) <==> Queues(db, a)
  {
    hide Attempt, Environment, HasJob, Create, CreateFromPublEvent, CreateManualSms, RetryForUser, AssertCanReserve;
    NextShape(db, a);
    var after := Next(db, a).requests;
    match a
    case CreateAction(_) => SingleRowQueues(db, a);
    case PublAction(_) => SingleRowQueues(db, a);
    case RetryAction(_, _, _, _, _, _) => SingleRowQueues(db, a);
    case ManualSmsAction(owner, batchId, phones, usageAt, queued) =>
      ManualSmsQueues(db, owner, batchId, phones, usageAt, queued);
      OnlyQueuedHasJob();
      if !Queues(db, a) { assert !HasJob(after[|db.requests| + queued].run); }
    case AttemptAction(id, outcome, f) =>
      if id < |db.requests| { JobIsKept(db.requests[id].run, outcome, f, CANCELED); }
    case EnvironmentAction(id, s) =>
      if id < |db.requests| { JobIsKept(db.requests[id].run, Accepts, NO_FAULTS, s); }
    case _ =>
  }

  lemma OnlyQueuedHasJob()
    ensures HasJob(NEW_RUN.(phase := Queued)) && !HasJob(NEW_RUN)
  {}

  lemma JobIsKept(r: Run, outcome: Outcome, f: Faults, s: Status)
    requires HasJob(r)
    ensures HasJob(Attempt(r, outcome, f)) && HasJob(Environment(r, s))
  {}

  /** Every request that has no job is terminal, throughout, exactly when no call ends with a
      row stored whose job the queue did not take. */
  lemma {:induction false} EveryRequestHasItsJob(db: Db, actions: seq<Action>, n: nat)
    requires Initial(db) && n <= |actions|
    ensures Throughout(db, actions, n, HasJob)
       <==> forall k | 0 <= k < n :: Queues(After(db, actions[..k]), actions[k])
  {
    hide Next, Queues, OfEveryJob, After;
    if n == 0 {
      NoJobs(db, actions, HasJob);
    } else {
      EveryRequestHasItsJob(db, actions, n - 1);
      NextOfPrefix(db, actions, n - 1);
      if Throughout(db, actions, n - 1, HasJob) {
        StepQueuesIff(After(db, actions[..n - 1]), actions[n - 1]);
      }
    }
  }

  /** A request without a job never gets one, so it is never attempted or sent. */
  lemma {:induction false} JoblessStays(db: Db, actions: seq<Action>, i: nat)
    requires i < |db.requests| && db.requests[i].run.phase == NoJob
    ensures var after := After(db, actions).requests;
            && i < |after|
            && after[i].run == db.requests[i].run.(status := after[i].run.status)
  {
    hide Next;
    if actions != [] {
      var n := |actions| - 1;
      JoblessStays(db, actions[..n], i);
      NextShape(After(db, actions[..n]), actions[n]);
    }
  }

  /** A DEAD request, in full: all 8 attempts have started, each has its row, numbered 1 to 8,
      and each row holds an error that is retried. */
  predicate DeadInFull(r: Run) {
    r.status == DEAD ==>
      && r.attemptCount == ATTEMPTS && |r.attempts| == ATTEMPTS
      && forall i | 0 <= i < ATTEMPTS :: r.attempts[i].attemptNumber == i + 1 && Retried(r.attempts[i])
  }

  lemma DeadIsInFull(r: Run)
    requires Bounded(r) && Concluded(r) && RowsComplete(r) && Counted(r) && RetriedOnly(r)
    ensures DeadInFull(r)
  {}

  /** The whole story of a job at the end of any run, each part under the faults it depends on. */
  lemma JobsAreFaithful(db: Db, actions: seq<Action>)
    requires Initial(db)
    ensures OfEveryJob(After(db, actions), Concluded)
    ensures AllMeet(db, actions, |actions|, KeepsSend) ==> OfEveryJob(After(db, actions), SentAtMostOnce)
    ensures AllMeet(db, actions, |actions|, KeepsRow) ==> OfEveryJob(After(db, actions), RowsComplete)
    ensures AllMeet(db, actions, |actions|, KeepsLetter) ==> OfEveryJob(After(db, actions), LettersMatch)
    ensures && AllMeet(db, actions, |actions|, KeepsRow)
            && AllMeet(db, actions, |actions|, KeepsCount)
            && AllMeet(db, actions, |actions|, KeepsRetried)
            ==> OfEveryJob(After(db, actions), DeadInFull)
  {
    hide After, AllMeet, Throughout, Bounded, Concluded, RowsComplete, Counted, RetriedOnly, DeadInFull;
    JobsStayBounded(db, actions);
    SendsHappenOnce(db, actions);
    RowsStayComplete(db, actions);
    LettersStayMatched(db, actions);
    AttemptsAreCounted(db, actions);
    OnlyRetriedErrors(db, actions);
    if AllMeet(db, actions, |actions|, KeepsSend) { AtTheEnd(db, actions, SentAtMostOnce); }
    if AllMeet(db, actions, |actions|, KeepsRow) { AtTheEnd(db, actions, RowsComplete); }
    if AllMeet(db, actions, |actions|, KeepsLetter) { AtTheEnd(db, actions, LettersMatch); }
    if && AllMeet(db, actions, |actions|, KeepsRow)
       && AllMeet(db, actions, |actions|, KeepsCount)
       && AllMeet(db, actions, |actions|, KeepsRetried)
    {
      AtTheEnd(db, actions, Counted);
      AtTheEnd(db, actions, RetriedOnly);
      var end := After(db, actions);
      forall i | 0 <= i < |end.requests| ensures DeadInFull(end.requests[i].run) {
        DeadIsInFull(end.requests[i].run);
      }
    }
  }
}
