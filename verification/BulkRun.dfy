/** The queued job of a bulk SMS campaign: `processBulkSmsCampaign`, its five attempts and
    the `failed` handler, with faults of the database writes. */
module BulkRun {
  import opened Wrappers
  import opened MessageRun
  import BulkDraft
  import opened BulkResults

  const BULK_ATTEMPTS := 5

  datatype CampaignState = PROCESSING_CAMPAIGN | Done(status: BulkResults.CampaignStatus)

  /** `hasRequestId` tells whether the provider's request id is stored; `sends` counts how
      often the provider accepted the campaign and is not stored anywhere. */
  datatype Job = Job(state: CampaignState, hasRequestId: bool, rows: seq<Row>, phase: Phase, attemptsMade: nat,
    sends: nat)

  /** What the send does: it throws, or the provider answers with its results. */
  datatype Answer = Throws(error: Error) | Answers(results: seq<SendResult>)

  /** `rows` tells which of the row updates are written, by position, if one of them fails. A
      timeout after the provider has accepted acts like rows none of which is written. */
  datatype BulkFaults = BulkFaults(rows: Option<set<nat>>, campaign: bool, handler: bool)

  /** The updates at some positions. */
  function Part(updates: seq<Update>, positions: set<nat>): seq<Update> {
    if updates == [] then []
    else
      var n := |updates| - 1;
      Part(updates[..n], positions) + (if n in positions then [updates[n]] else [])
  }

  /** What an attempt writes of the answer that it gets. */
  function Wrote(results: seq<SendResult>, f: BulkFaults): seq<Update> {
    var updates := WorkerUpdates(results, |results|);
    if f.rows.Some? then Part(updates, f.rows.value) else updates
  }

  function UpdatedRows(rows: seq<Row>, updates: seq<Update>): (r: seq<Row>)
    ensures |r| == |rows| && forall i | 0 <= i < |rows| :: r[i] == UpdatedRow(rows[i], updates)
  {
    seq(|rows|, i requires 0 <= i < |rows| => UpdatedRow(rows[i], updates))
  }

  function SendCampaign(j: Job, answer: Answer, f: BulkFaults): (Job, Option<Error>) {
    match answer
    case Throws(e) => (j, Some(e))
    case Answers(results) =>
      var sent := j.(sends := j.sends + 1, rows := UpdatedRows(j.rows, Wrote(results, f)));
      if f.rows.Some? || f.campaign then (sent, Some(Other))
      else (sent.(state := Done(StatusOf(AnyAccepted(results), AnyFailed(results))), hasRequestId := true), None)
  }

  /** One call of `processBulkSmsCampaign`: the new state and what is thrown. */
  function ProcessCampaign(j: Job, answer: Answer, f: BulkFaults): (Job, Option<Error>) {
    if j.hasRequestId || j.state.Done? then (j, None)
    else
      var (after, caught) := SendCampaign(j, answer, f);
      (after, if caught.Some? && !IsRetryable(caught.value) then Some(Unrecoverable) else caught)
  }

  function AfterCall(j: Job, thrown: Option<Error>, f: BulkFaults): Job {
    match thrown
    case None => j.(phase := Completed)
    case Some(e) =>
      var made := j.(attemptsMade := j.attemptsMade + 1);
      if e == Unrecoverable || made.attemptsMade >= BULK_ATTEMPTS then
        var ended := made.(phase := Failed);
        if f.handler || ended.state.Done? then ended else ended.(state := Done(FAILED))
      else made
  }

  function BulkAttempt(j: Job, answer: Answer, f: BulkFaults): Job {
    if j.phase != Queued then j
    else
      var (after, thrown) := ProcessCampaign(j, answer, f);
      AfterCall(after, thrown, f)
  }

  datatype Step = Step(answer: Answer, faults: BulkFaults)

  function NewJob(rows: seq<Row>): Job {
    Job(PROCESSING_CAMPAIGN, false, rows, Queued, 0, 0)
  }

  function AfterSteps(rows: seq<Row>, steps: seq<Step>): Job {
    if steps == [] then NewJob(rows)
    else
      var last := steps[|steps| - 1];
      BulkAttempt(AfterSteps(rows, steps[..|steps| - 1]), last.answer, last.faults)
  }

  // ------------------------------------------------------------- invariants

  predicate BulkBounded(j: Job) {
    && j.attemptsMade <= BULK_ATTEMPTS
    && (j.phase == Queued ==> j.attemptsMade < BULK_ATTEMPTS && j.state == PROCESSING_CAMPAIGN && !j.hasRequestId)
    && j.phase != NoJob
    && j.sends <= j.attemptsMade + (if j.phase == Completed then 1 else 0)
    && j.sends <= BULK_ATTEMPTS
    && (j.hasRequestId <==> j.phase == Completed)
    && (j.phase == Completed ==> j.state.Done? && j.sends >= 1)
  }

  /** In every run, whatever writes fail: at most five attempts and sends, the request id is
      stored exactly when the job has completed, and then the status is final. */
  lemma {:induction false} BulkJobIsBounded(rows: seq<Row>, steps: seq<Step>)
    ensures BulkBounded(AfterSteps(rows, steps))
  {
    hide UpdatedRows, WorkerUpdates, Wrote;
    if steps != [] { BulkJobIsBounded(rows, steps[..|steps| - 1]); }
  }

  /** A campaign that has a request id or a final status is not sent again, whatever would be answered. */
  lemma FinishedCampaignIsSkipped(j: Job, answer: Answer, f: BulkFaults)
    ensures j.hasRequestId || j.state != PROCESSING_CAMPAIGN ==> ProcessCampaign(j, answer, f) == (j, None)
  {}

  // ---------------------------------------- what holds exactly under which faults

  /** The writes after a send succeed. */
  predicate WritesKept(f: BulkFaults) {
    f.rows == None && !f.campaign
  }

  /** The provider has accepted the campaign once if its job has completed, and not at all otherwise. */
  predicate SentOnce(j: Job) {
    j.sends == (if j.phase == Completed then 1 else 0)
  }

  /** A failed job leaves the campaign FAILED. */
  predicate FailedIsMarked(j: Job) {
    j.phase == Failed ==> j.state == Done(FAILED)
  }

  predicate KeepsSend(j: Job, answer: Answer, f: BulkFaults) {
    j.phase == Queued && answer.Answers? ==> WritesKept(f)
  }

  /** The attempt throws what ends the job, or is the last one and throws. */
  predicate EndsFailed(j: Job, answer: Answer, f: BulkFaults) {
    && j.phase == Queued
    && (if answer.Throws? then !IsRetryable(answer.error) || j.attemptsMade == BULK_ATTEMPTS - 1
        else !WritesKept(f) && j.attemptsMade == BULK_ATTEMPTS - 1)
  }

  lemma AttemptSendsOnce(j: Job, answer: Answer, f: BulkFaults)
    requires BulkBounded(j) && SentOnce(j)
    ensures SentOnce(BulkAttempt(j, answer, f)) <==> KeepsSend(j, answer, f)
  {
    hide UpdatedRows, WorkerUpdates, Wrote;
  }

  /** When a campaign job ends, and what marks a failed campaign. */
  lemma BulkJobEndsIff(j: Job, answer: Answer, f: BulkFaults)
    requires BulkBounded(j)
    ensures var after := BulkAttempt(j, answer, f);
            && (j.phase == Queued ==> (after.phase == Completed <==> answer.Answers? && WritesKept(f)))
            && (j.phase == Queued ==> (after.phase == Failed <==> EndsFailed(j, answer, f)))
            && (FailedIsMarked(j) ==> (FailedIsMarked(after) <==> (EndsFailed(j, answer, f) ==> !f.handler)))
  {
    hide UpdatedRows, WorkerUpdates, Wrote;
  }

  /** Every step meets a condition in the state it starts from. */
  predicate AllMeet(rows: seq<Row>, steps: seq<Step>, n: nat, condition: (Job, Answer, BulkFaults) -> bool)
    requires n <= |steps|
  {
    forall k | 0 <= k < n :: condition(AfterSteps(rows, steps[..k]), steps[k].answer, steps[k].faults)
  }

  predicate Throughout(rows: seq<Row>, steps: seq<Step>, n: nat, inv: Job -> bool)
    requires n <= |steps|
  {
    forall k | 0 <= k <= n :: inv(AfterSteps(rows, steps[..k]))
  }

  lemma NextOfSteps(rows: seq<Row>, steps: seq<Step>, n: nat)
    requires n < |steps|
    ensures AfterSteps(rows, steps[..n + 1])
        == BulkAttempt(AfterSteps(rows, steps[..n]), steps[n].answer, steps[n].faults)
  {
    hide BulkAttempt;
    assert steps[..n + 1][..n] == steps[..n];
  }

  /** In every run, a campaign is sent once when its job completes, and never otherwise,
      exactly when the writes succeed after every send. */
  lemma {:induction false} CampaignIsSentOnce(rows: seq<Row>, steps: seq<Step>, n: nat)
    requires n <= |steps|
    ensures Throughout(rows, steps, n, SentOnce) <==> AllMeet(rows, steps, n, KeepsSend)
  {
    hide BulkAttempt, BulkBounded, KeepsSend, AfterSteps, SentOnce;
    if n == 0 {
      NewJobIsSound(rows, steps);
    } else {
      CampaignIsSentOnce(rows, steps, n - 1);
      NextOfSteps(rows, steps, n - 1);
      BulkJobIsBounded(rows, steps[..n - 1]);
      if Throughout(rows, steps, n - 1, SentOnce) {
        AttemptSendsOnce(AfterSteps(rows, steps[..n - 1]), steps[n - 1].answer, steps[n - 1].faults);
      }
    }
  }

  lemma NewJobIsSound(rows: seq<Row>, steps: seq<Step>)
    ensures SentOnce(AfterSteps(rows, steps[..0])) && FailedIsMarked(AfterSteps(rows, steps[..0]))
  {}

  predicate HandlerWrites(j: Job, answer: Answer, f: BulkFaults) {
    EndsFailed(j, answer, f) ==> !f.handler
  }

  /** In every run, a failed job leaves its campaign FAILED exactly when the write of the
      `failed` handler succeeds whenever it runs. */
  lemma {:induction false} FailedCampaignIsMarked(rows: seq<Row>, steps: seq<Step>, n: nat)
    requires n <= |steps|
    ensures Throughout(rows, steps, n, FailedIsMarked) <==> AllMeet(rows, steps, n, HandlerWrites)
  {
    hide BulkAttempt, BulkBounded, EndsFailed, AfterSteps, FailedIsMarked;
    if n == 0 {
      NewJobIsSound(rows, steps);
    } else {
      FailedCampaignIsMarked(rows, steps, n - 1);
      NextOfSteps(rows, steps, n - 1);
      BulkJobIsBounded(rows, steps[..n - 1]);
      if Throughout(rows, steps, n - 1, FailedIsMarked) {
        BulkJobEndsIff(AfterSteps(rows, steps[..n - 1]), steps[n - 1].answer, steps[n - 1].faults);
      }
    }
  }

  /** The status is the one that this answer gives. */
  predicate StatusFrom(j: Job, results: seq<SendResult>) {
    j.state == Done(StatusOf(AnyAccepted(results), AnyFailed(results)))
  }

  // ---------------------------------------- what is written, whatever writes fail

  lemma {:induction false} UpdatedTwice(row: Row, a: seq<Update>, b: seq<Update>)
    ensures UpdatedRow(UpdatedRow(row, a), b) == UpdatedRow(row, a + b)
  {
    hide UpdateRow;
    if b == [] {
      assert a + b == a;
    } else {
      UpdatedTwice(row, a, b[..|b| - 1]);
      assert (a + b)[..|a + b| - 1] == a + b[..|b| - 1];
    }
  }

  /** What one call of the job writes. */
  function CallWrites(j: Job, answer: Answer, f: BulkFaults): seq<Update> {
    if j.phase == Queued && answer.Answers? then Wrote(answer.results, f) else []
  }

  /** Everything that the attempts of a run have written, in order. */
  function Written(rows: seq<Row>, steps: seq<Step>): seq<Update> {
    if steps == [] then []
    else
      var n := |steps| - 1;
      Written(rows, steps[..n]) + CallWrites(AfterSteps(rows, steps[..n]), steps[n].answer, steps[n].faults)
  }

  lemma AttemptWrites(j: Job, answer: Answer, f: BulkFaults)
    requires BulkBounded(j)
    ensures BulkAttempt(j, answer, f).rows
         == UpdatedRows(j.rows, CallWrites(j, answer, f))
  {
    hide UpdatedRows, Wrote;
    UpdatedRowsTwice(j.rows, [], []);
  }

  lemma UpdatedRowsTwice(rows: seq<Row>, a: seq<Update>, b: seq<Update>)
    ensures UpdatedRows(UpdatedRows(rows, a), b) == UpdatedRows(rows, a + b)
    ensures UpdatedRows(rows, []) == rows
  {
    hide UpdateRow;
    forall i | 0 <= i < |rows| ensures UpdatedRows(UpdatedRows(rows, a), b)[i] == UpdatedRows(rows, a + b)[i] {
      UpdatedTwice(rows[i], a, b);
    }
  }

  /** In every run, the rows are those of the start with everything applied that was written. */
  lemma {:induction false} RowsAreWritten(rows: seq<Row>, steps: seq<Step>)
    ensures AfterSteps(rows, steps).rows == UpdatedRows(rows, Written(rows, steps))
  {
    hide UpdatedRows, Wrote, BulkAttempt, BulkBounded;
    if steps == [] {
      UpdatedRowsTwice(rows, [], []);
    } else {
      var n := |steps| - 1;
      var before := AfterSteps(rows, steps[..n]);
      RowsAreWritten(rows, steps[..n]);
      BulkJobIsBounded(rows, steps[..n]);
      AttemptWrites(before, steps[n].answer, steps[n].faults);
      var earlier := Written(rows, steps[..n]);
      UpdatedRowsTwice(rows, earlier, CallWrites(before, steps[n].answer, steps[n].faults));
    }
  }

  /** Attempt `k` is the one that completes the job: it starts queued, the provider answers and
      the writes come through. */
  predicate Completes(rows: seq<Row>, steps: seq<Step>, k: nat)
    requires k < |steps|
  {
    AfterSteps(rows, steps[..k]).phase == Queued && steps[k].answer.Answers? && WritesKept(steps[k].faults)
  }

  /** A completed job was completed by one attempt, within the first five. That attempt gave it its
      status and wrote all of its updates, and nothing was written after it. */
  lemma {:induction false} FinishedCampaignIsFinal(rows: seq<Row>, steps: seq<Step>) returns (k: nat)
    requires AfterSteps(rows, steps).phase == Completed
    ensures k < |steps| && k < BULK_ATTEMPTS && Completes(rows, steps, k)
    ensures StatusFrom(AfterSteps(rows, steps), steps[k].answer.results)
    ensures var results := steps[k].answer.results;
            Written(rows, steps) == Written(rows, steps[..k]) + WorkerUpdates(results, |results|)
  {
    hide UpdatedRows, WorkerUpdates, Wrote, AnyAccepted, AnyFailed, StatusOf;
    var n := |steps| - 1;
    var before := AfterSteps(rows, steps[..n]);
    BulkJobIsBounded(rows, steps[..n]);
    if before.phase == Completed {
      k := FinishedCampaignIsFinal(rows, steps[..n]);
      assert steps[..n][..k] == steps[..k];
      assert Written(rows, steps) == Written(rows, steps[..n]);
    } else {
      k := n;
      RepeatNeedsLoss(rows, steps[..n]);
      WroteAll(steps[n].answer.results, steps[n].faults);
    }
  }

  lemma WroteAll(results: seq<SendResult>, f: BulkFaults)
    requires WritesKept(f)
    ensures Wrote(results, f) == WorkerUpdates(results, |results|)
  {}

  /** If the writes after every send succeed, nothing is written before the attempt that completes the job. */
  lemma {:induction false} NothingWrittenEarlier(rows: seq<Row>, steps: seq<Step>)
    requires forall k | 0 <= k < |steps| && steps[k].answer.Answers? :: WritesKept(steps[k].faults)
    requires AfterSteps(rows, steps).phase != Completed
    ensures Written(rows, steps) == []
  {
    hide UpdatedRows, WorkerUpdates, Wrote, AnyAccepted, AnyFailed, StatusOf;
    if steps != [] {
      var n := |steps| - 1;
      BulkJobIsBounded(rows, steps[..n]);
      NothingWrittenEarlier(rows, steps[..n]);
      BulkAttemptCounts(AfterSteps(rows, steps[..n]), steps[n].answer, steps[n].faults);
      if AfterSteps(rows, steps[..n]).phase == Queued {
        BulkJobEndsIff(AfterSteps(rows, steps[..n]), steps[n].answer, steps[n].faults);
      }
    }
  }

  // ------------------------------------------- what the status of a queued campaign tells

  predicate NoneFailed(rows: seq<Row>) {
    forall i | 0 <= i < |rows| :: rows[i].status == REQUESTED
  }

  predicate AllFailed(rows: seq<Row>) {
    forall i | 0 <= i < |rows| :: rows[i].status == ROW_FAILED
  }

  /** Every recipient has a result of its own or a failure that an earlier attempt has written. */
  predicate OwnOrEarlier(rows: seq<Row>, earlier: seq<Update>, own: seq<Update>) {
    forall i | 0 <= i < |rows| :: Hit(own, rows[i]) || HitByFailure(earlier, rows[i])
  }

  /** Exactly when the status of a campaign agrees with its rows, by what earlier attempts have
      written and by the answer that completed the job. */
  predicate StatusIsExact(j: Job, rows: seq<Row>, earlier: seq<Update>, results: seq<SendResult>) {
    var own := WorkerUpdates(results, |results|);
    && StatusFrom(j, results)
    && ((j.state == Done(CampaignStatus.SENT_TO_PROVIDER) <==> NoneFailed(j.rows))
        <==> if results != [] && !AnyFailed(results) then !FailureFinds(rows, earlier)
             else FailureFinds(rows, earlier) || FailureFinds(rows, own))
    && ((j.state == Done(FAILED) <==> AllFailed(j.rows))
        <==> if AnyAccepted(results) then RowSpared(rows, earlier + own) else OwnOrEarlier(rows, earlier, own))
  }

  lemma HitConcat(row: Row, a: seq<Update>, b: seq<Update>)
    ensures HitByFailure(a + b, row) <==> HitByFailure(a, row) || HitByFailure(b, row)
  {
    hide Matches;
    assert forall k | 0 <= k < |a| :: (a + b)[k] == a[k];
    assert forall k | 0 <= k < |b| :: (a + b)[|a| + k] == b[k];
  }

  lemma FailuresConcat(rows: seq<Row>, a: seq<Update>, b: seq<Update>)
    ensures FailureFinds(rows, a + b) <==> FailureFinds(rows, a) || FailureFinds(rows, b)
  {
    hide HitByFailure;
    forall i | 0 <= i < |rows| { HitConcat(rows[i], a, b); }
  }

  /** Without an accepted result, a row is spared by all failures exactly when it has no result
      and no earlier failure. */
  lemma SparedWithoutAccepted(rows: seq<Row>, earlier: seq<Update>, own: seq<Update>, results: seq<SendResult>)
    requires Reported(own, results) && !AnyAccepted(results)
    ensures OwnOrEarlier(rows, earlier, own) <==> !RowSpared(rows, earlier + own)
  {
    hide Matches, AnyAccepted, AnyFailed;
    forall i | 0 <= i < |rows|
      ensures HitByFailure(earlier + own, rows[i]) <==> Hit(own, rows[i]) || HitByFailure(earlier, rows[i])
    {
      HitConcat(rows[i], earlier, own);
    }
  }

  lemma AnswerIsExact(j: Job, rows: seq<Row>, earlier: seq<Update>, results: seq<SendResult>)
    requires Fresh(rows) && StatusFrom(j, results)
    requires j.rows == UpdatedRows(rows, earlier + WorkerUpdates(results, |results|))
    ensures StatusIsExact(j, rows, earlier, results)
  {
    hide WorkerUpdates, UpdatedRow, AnyAccepted, AnyFailed, FailureFinds, RowSpared, OwnOrEarlier, Reported, Fresh;
    var own := WorkerUpdates(results, |results|);
    WorkerUpdatesAreReported(results, |results|);
    RowsFailIff(rows, earlier + own);
    HitsByKind(rows, own, results);
    FailuresConcat(rows, earlier, own);
    SomeResult(results);
    if !AnyAccepted(results) { SparedWithoutAccepted(rows, earlier, own, results); }
  }

  /** For every completed campaign, whatever writes its earlier attempts have lost: exactly when
      its status tells that no row failed, and that every row failed. If no write after a
      send was lost, nothing was written earlier. */
  lemma {:induction false} QueuedStatusAgreesIff(rows: seq<Row>, steps: seq<Step>) returns (k: nat)
    requires Fresh(rows) && AfterSteps(rows, steps).phase == Completed
    ensures k < |steps| && Completes(rows, steps, k)
    ensures StatusIsExact(AfterSteps(rows, steps), rows, Written(rows, steps[..k]), steps[k].answer.results)
    ensures (forall m | 0 <= m < k && steps[m].answer.Answers? :: WritesKept(steps[m].faults)) ==>
              Written(rows, steps[..k]) == []
  {
    hide AfterSteps, StatusFrom, Written, WritesKept, StatusIsExact;
    k := FinishedCampaignIsFinal(rows, steps);
    RowsAreWritten(rows, steps);
    AnswerIsExact(AfterSteps(rows, steps), rows, Written(rows, steps[..k]), steps[k].answer.results);
    if forall m | 0 <= m < k && steps[m].answer.Answers? :: WritesKept(steps[m].faults) {
      NothingWrittenEarlier(rows, steps[..k]);
    }
  }

  /** When the results carry grouping keys, find their recipients and reach every recipient, and
      nothing was written earlier, the status of a queued campaign tells what became of its
      rows, as for a direct send. */
  lemma {:induction false} KeyedAnswerTellsTheRows(j: Job, drafts: seq<BulkDraft.Draft>, rows: seq<Row>,
                                                   results: seq<SendResult>)
    requires rows != [] && Fresh(rows) && StatusFrom(j, results)
    requires j.rows == UpdatedRows(rows, WorkerUpdates(results, |results|))
    requires forall k | 0 <= k < |results| :: Truthy(results[k].recipientGroupingKey)
    requires AllPlaced(drafts, results, rows) && AllCovered(rows, WorkerUpdates(results, |results|))
    ensures j.state == Done(CampaignStatus.SENT_TO_PROVIDER) <==> NoneFailed(j.rows)
    ensures NoneTwice(rows, WorkerUpdates(results, |results|)) ==> (j.state == Done(FAILED) <==> AllFailed(j.rows))
  {
    hide WorkerUpdates, DirectUpdates, UpdatedRow, AnyAccepted, AnyFailed, StatusOf, AllPlaced, AllCovered, NoneTwice;
    WorkerAgreesIff(drafts, results);
    StatusTellsTheRows(drafts, results, rows);
  }

  // --------------------------------------------------------------- the worker

  /** The campaign row, its recipient rows and its job, as the worker changes them. */
  class BulkCampaign {
    var job: Job

    constructor (rows: seq<Row>)
      ensures job == NewJob(rows)
    {
      job := NewJob(rows);
    }

    /** `processBulkSmsCampaign`, one write after the other. */
    method ProcessBulkSmsCampaign(answer: Answer, f: BulkFaults) returns (thrown: Option<Error>)
      modifies this
      ensures (job, thrown) == ProcessCampaign(old(job), answer, f)
    {
      hide UpdatedRows;
      if job.hasRequestId || job.state.Done? {
        return None;
      }
      match answer
      case Throws(e) =>
        thrown := Some(if IsRetryable(e) then e else Unrecoverable);
      case Answers(results) =>
        job := job.(sends := job.sends + 1);
        var updates: seq<Update> := [];
        var hasAcceptedRecipient, hasFailedRecipient := false, false;
        for k := 0 to |results|
          invariant updates == WorkerUpdates(results, k)
          invariant hasAcceptedRecipient == AnyAccepted(results[..k])
          invariant hasFailedRecipient == AnyFailed(results[..k])
          invariant job == old(job).(sends := old(job).sends + 1)
        {
          var item := results[k];
          var isAccepted := IsAccepted(item);
          AnyStep(results, k);
          hasAcceptedRecipient := hasAcceptedRecipient || isAccepted;
          hasFailedRecipient := hasFailedRecipient || !isAccepted;
          if Truthy(item.recipientGroupingKey) {
            updates := updates + [Update(ByKey(item.recipientGroupingKey.value), item.recipientSeq, isAccepted)];
          }
        }
        assert results[..|results|] == results;
        if f.rows.Some? {
          job := job.(rows := UpdatedRows(job.rows, Part(updates, f.rows.value)));
          return Some(Other);
        }
        job := job.(rows := UpdatedRows(job.rows, updates));
        if f.campaign {
          return Some(Other);
        }
        job := job.(state := Done(StatusOf(hasAcceptedRecipient, hasFailedRecipient)), hasRequestId := true);
        thrown := None;
    }

    /** The queue runs the job once more; the `failed` handler runs when it was the last time. */
    method RunAttempt(answer: Answer, f: BulkFaults)
      modifies this
      ensures job == BulkAttempt(old(job), answer, f)
    {
      hide ProcessCampaign;
      if job.phase != Queued {
        return;
      }
      var thrown := ProcessBulkSmsCampaign(answer, f);
      if thrown.None? {
        job := job.(phase := Completed);
        return;
      }
      job := job.(attemptsMade := job.attemptsMade + 1);
      if thrown.value == Unrecoverable || job.attemptsMade >= BULK_ATTEMPTS {
        job := job.(phase := Failed);
        if !f.handler && !job.state.Done? {
          job := job.(state := Done(FAILED));
        }
      }
    }
  }

  // --------------------------------------------- exactly when a campaign repeats

  /** The steps under a fixed schedule of faults, for what the provider answers. */
  function ScheduledSteps(answers: seq<Answer>, schedule: seq<BulkFaults>): (steps: seq<Step>)
    requires |answers| <= |schedule|
    ensures |steps| == |answers| && forall k | 0 <= k < |steps| :: steps[k] == Step(answers[k], schedule[k])
  {
    seq(|answers|, k requires 0 <= k < |answers| => Step(answers[k], schedule[k]))
  }

  /** One of the first four attempts can lose the writes after its send, and another attempt follows. */
  predicate CanRepeat(schedule: seq<BulkFaults>) {
    exists i | 0 <= i < |schedule| - 1 && i < BULK_ATTEMPTS - 1 :: !WritesKept(schedule[i])
  }

  ghost predicate SentOnceUnder(rows: seq<Row>, schedule: seq<BulkFaults>) {
    forall answers: seq<Answer> | |answers| <= |schedule| ::
      AfterSteps(rows, ScheduledSteps(answers, schedule)).sends <= 1
  }

  /** A campaign that goes on after a send has lost the writes of it, and before its last attempt. */
  lemma {:induction false} RepeatNeedsLoss(rows: seq<Row>, steps: seq<Step>)
    ensures var j := AfterSteps(rows, steps);
            && (j.phase == Queued ==> j.attemptsMade == |steps|)
            && (j.sends >= 1 && j.phase == Queued ==>
                  exists i | 0 <= i < |steps| && i < BULK_ATTEMPTS - 1 :: !WritesKept(steps[i].faults))
            && (j.sends >= 2 ==>
                  exists i | 0 <= i < |steps| - 1 && i < BULK_ATTEMPTS - 1 :: !WritesKept(steps[i].faults))
  {
    hide UpdatedRows, WorkerUpdates, Wrote, StatusOf, AnyAccepted, AnyFailed, WritesKept;
    if steps != [] {
      var n := |steps| - 1;
      RepeatNeedsLoss(rows, steps[..n]);
      BulkJobIsBounded(rows, steps[..n]);
      var before := AfterSteps(rows, steps[..n]);
      BulkAttemptCounts(before, steps[n].answer, steps[n].faults);
      if before.sends >= 1 && before.phase == Queued {
        var i :| 0 <= i < n && i < BULK_ATTEMPTS - 1 && !WritesKept(steps[..n][i].faults);
        assert !WritesKept(steps[i].faults);
      }
    }
  }

  lemma BulkAttemptCounts(j: Job, answer: Answer, f: BulkFaults)
    requires BulkBounded(j)
    ensures j.phase != Queued ==> BulkAttempt(j, answer, f) == j
    ensures var after := BulkAttempt(j, answer, f);
            && (after.phase == Queued ==> j.phase == Queued && after.attemptsMade == j.attemptsMade + 1 < BULK_ATTEMPTS)
            && after.sends == j.sends + (if j.phase == Queued && answer.Answers? then 1 else 0)
            && (after.phase == Queued && answer.Answers? ==> !WritesKept(f))
            && (j.phase == Queued && j.attemptsMade < BULK_ATTEMPTS - 1 && answer.Throws? && IsRetryable(answer.error)
                ==> after.phase == Queued)
            && (j.phase == Queued && j.attemptsMade < BULK_ATTEMPTS - 1 && !WritesKept(f) && answer.Answers? ==>
                  after.phase == Queued)
  {
    hide UpdatedRows, WorkerUpdates, Wrote, StatusOf, AnyAccepted, AnyFailed;
  }

  /** Nothing but retryable errors, and two answers in a row. */
  function TwoAnswers(i: nat, n: nat): seq<Answer> {
    seq(n, k => if k == i || k == i + 1 then Answers([]) else Answer.Throws(Other))
  }

  lemma {:induction false} TwoAnswersRun(rows: seq<Row>, i: nat, n: nat, schedule: seq<BulkFaults>)
    requires i < BULK_ATTEMPTS - 1 && i + 1 < |schedule| && !WritesKept(schedule[i]) && n <= i + 2
    ensures var j := AfterSteps(rows, ScheduledSteps(TwoAnswers(i, n), schedule));
            && (n <= i + 1 ==> j.phase == Queued)
            && j.sends == (if n <= i then 0 else n - i)
  {
    hide BulkAttempt, BulkBounded, WritesKept;
    if n > 0 {
      var steps := ScheduledSteps(TwoAnswers(i, n), schedule);
      var m := n - 1;
      TwoAnswersRun(rows, i, m, schedule);
      assert steps[..m] == ScheduledSteps(TwoAnswers(i, m), schedule);
      BulkJobIsBounded(rows, steps[..m]);
      RepeatNeedsLoss(rows, steps[..m]);
      BulkAttemptCounts(AfterSteps(rows, steps[..m]), steps[m].answer, steps[m].faults);
    }
  }

  /** Under a schedule of faults the provider accepts a campaign at most once, whatever it
      answers, exactly when no attempt but the last can lose the writes after its send. */
  lemma CampaignSentOnceIff(rows: seq<Row>, schedule: seq<BulkFaults>)
    ensures SentOnceUnder(rows, schedule) <==> !CanRepeat(schedule)
  {
    hide AfterSteps, WritesKept;
    if CanRepeat(schedule) {
      var i :| 0 <= i < |schedule| - 1 && i < BULK_ATTEMPTS - 1 && !WritesKept(schedule[i]);
      TwoAnswersRun(rows, i, i + 2, schedule);
      assert |TwoAnswers(i, i + 2)| == i + 2;
      assert AfterSteps(rows, ScheduledSteps(TwoAnswers(i, i + 2), schedule)).sends == 2;
    } else {
      forall answers: seq<Answer> | |answers| <= |schedule|
        ensures AfterSteps(rows, ScheduledSteps(answers, schedule)).sends <= 1
      {
        RepeatNeedsLoss(rows, ScheduledSteps(answers, schedule));
      }
    }
  }

  // ------------------------------------ exactly when a lost failure misleads

  /** The attempt can lose its writes after it has stored a failure. */
  predicate CanStore(f: BulkFaults) {
    !WritesKept(f) && f.rows != Some({})
  }

  /** Among the first five attempts, one that can lose its writes after storing a failure is
      followed by one whose writes are kept. */
  predicate CanMislead(schedule: seq<BulkFaults>) {
    exists i, k | 0 <= i < k < |schedule| && k < BULK_ATTEMPTS :: CanStore(schedule[i]) && WritesKept(schedule[k])
  }

  /** Whatever the provider answers, a campaign that is SENT_TO_PROVIDER has no failed row. */
  ghost predicate SentTellsUnder(rows: seq<Row>, schedule: seq<BulkFaults>) {
    forall answers: seq<Answer> | |answers| <= |schedule| ::
      SentTells(AfterSteps(rows, ScheduledSteps(answers, schedule)))
  }

  predicate SentTells(j: Job) {
    j.phase == Completed && j.state == Done(CampaignStatus.SENT_TO_PROVIDER) ==> NoneFailed(j.rows)
  }

  lemma {:induction false} NoPart(updates: seq<Update>)
    ensures Part(updates, {}) == []
  {
    if updates != [] { NoPart(updates[..|updates| - 1]); }
  }

  /** A job that goes on without having been able to store anything has written nothing. */
  lemma {:induction false} NothingStored(rows: seq<Row>, steps: seq<Step>)
    requires AfterSteps(rows, steps).phase == Queued
    requires forall m | 0 <= m < |steps| :: !CanStore(steps[m].faults)
    ensures Written(rows, steps) == []
  {
    hide BulkAttempt, BulkBounded, WorkerUpdates, Part;
    if steps != [] {
      var n := |steps| - 1;
      BulkJobIsBounded(rows, steps[..n]);
      BulkAttemptCounts(AfterSteps(rows, steps[..n]), steps[n].answer, steps[n].faults);
      NothingStored(rows, steps[..n]);
      if steps[n].answer.Answers? {
        NoPart(WorkerUpdates(steps[n].answer.results, |steps[n].answer.results|));
      }
    }
  }

  /** A lost failure that misleads was stored under the schedule. */
  lemma MisleadingWasStored(rows: seq<Row>, answers: seq<Answer>, schedule: seq<BulkFaults>)
    requires Fresh(rows) && |answers| <= |schedule| && !CanMislead(schedule)
    ensures SentTells(AfterSteps(rows, ScheduledSteps(answers, schedule)))
  {
    hide AfterSteps, Written, AnyAccepted, AnyFailed, FailureFinds, RowSpared, OwnOrEarlier, CanStore, WritesKept;
    var steps := ScheduledSteps(answers, schedule);
    var j := AfterSteps(rows, steps);
    if j.phase == Completed {
      var k := FinishedCampaignIsFinal(rows, steps);
      RowsAreWritten(rows, steps);
      AnswerIsExact(j, rows, Written(rows, steps[..k]), steps[k].answer.results);
      forall m | 0 <= m < k ensures !CanStore(steps[..k][m].faults) {
        assert steps[..k][m] == Step(answers[m], schedule[m]);
      }
      NothingStored(rows, steps[..k]);
      NothingFinds(rows);
      SomeResult(steps[k].answer.results);
    }
  }

  lemma NothingFinds(rows: seq<Row>)
    ensures !FailureFinds(rows, [])
  {}

  /** Failed results about one recipient. */
  function Failures(key: string, n: nat): seq<SendResult> {
    seq(n, _ => SendResult(Some(key), None, None, Some("1")))
  }

  lemma {:induction false} FailureUpdates(key: string, m: nat, n: nat)
    requires key != "" && n <= m
    ensures |WorkerUpdates(Failures(key, m), n)| == n
    ensures forall k | 0 <= k < n :: WorkerUpdates(Failures(key, m), n)[k] == Update(ByKey(key), None, false)
  {
    if n > 0 { FailureUpdates(key, m, n - 1); }
  }

  lemma {:induction false} PartHas(updates: seq<Update>, positions: set<nat>, m: nat)
    requires m in positions && m < |updates|
    ensures updates[m] in Part(updates, positions)
  {
    var n := |updates| - 1;
    if m < n { PartHas(updates[..n], positions, m); }
  }

  /** An attempt that can store a failure stores one, for some answer. */
  lemma FailureIsStored(f: BulkFaults, key: string) returns (results: seq<SendResult>)
    requires CanStore(f) && key != ""
    ensures Update(ByKey(key), None, false) in Wrote(results, f)
  {
    hide Part, WorkerUpdates;
    var m: nat := 0;
    if f.rows.Some? {
      assert f.rows.value != {};
      m :| m in f.rows.value;
    }
    results := Failures(key, m + 1);
    FailureUpdates(key, m + 1, m + 1);
    var updates := WorkerUpdates(results, m + 1);
    assert updates[m] == Update(ByKey(key), None, false);
    if f.rows.Some? { PartHas(updates, f.rows.value, m); }
  }

  /** Nothing but retryable errors, and one answer at attempt `i` and another at attempt `k`. */
  function AnswersAt(i: nat, first: seq<SendResult>, k: nat, second: seq<SendResult>, n: nat): seq<Answer> {
    seq(n, x => if x == i then Answers(first) else if x == k then Answers(second) else Answer.Throws(Other))
  }

  lemma {:induction false} StoredThenGoesOn(rows: seq<Row>, i: nat, first: seq<SendResult>, k: nat,
                                            second: seq<SendResult>, n: nat, schedule: seq<BulkFaults>, u: Update)
    requires i < k < |schedule| && k < BULK_ATTEMPTS && n <= k
    requires !WritesKept(schedule[i]) && u in Wrote(first, schedule[i])
    ensures var steps := ScheduledSteps(AnswersAt(i, first, k, second, n), schedule);
            && AfterSteps(rows, steps).phase == Queued
            && (n > i ==> u in Written(rows, steps))
    decreases n
  {
    hide BulkAttempt, BulkBounded, WritesKept, Wrote;
    if n > 0 {
      var m := n - 1;
      var steps := ScheduledSteps(AnswersAt(i, first, k, second, n), schedule);
      StoredThenGoesOn(rows, i, first, k, second, m, schedule, u);
      assert steps[..m] == ScheduledSteps(AnswersAt(i, first, k, second, m), schedule);
      BulkJobIsBounded(rows, steps[..m]);
      RepeatNeedsLoss(rows, steps[..m]);
      BulkAttemptCounts(AfterSteps(rows, steps[..m]), steps[m].answer, steps[m].faults);
    }
  }

  lemma StoredFailureMisleads(rows: seq<Row>, r: nat, i: nat, k: nat, schedule: seq<BulkFaults>)
    requires Fresh(rows) && r < |rows| && rows[r].recipientGroupingKey != ""
    requires i < k < |schedule| && k < BULK_ATTEMPTS && CanStore(schedule[i]) && WritesKept(schedule[k])
    ensures !SentTellsUnder(rows, schedule)
  {
    hide BulkBounded, WorkerUpdates, Wrote, UpdatedRow, Written;
    var first := FailureIsStored(schedule[i], rows[r].recipientGroupingKey);
    var u := Update(ByKey(rows[r].recipientGroupingKey), None, false);
    var second := [SendResult(None, None, None, None)];
    var answers := AnswersAt(i, first, k, second, k + 1);
    StoredThenGoesOn(rows, i, first, k, second, k, schedule, u);
    var steps := ScheduledSteps(answers, schedule);
    assert steps[..k] == ScheduledSteps(AnswersAt(i, first, k, second, k), schedule);
    NextOfSteps(rows, steps, k);
    assert steps[..k + 1] == steps;
    BulkJobIsBounded(rows, steps[..k]);
    OneAccepted();
    var j := AfterSteps(rows, steps);
    assert j.phase == Completed && j.state == Done(CampaignStatus.SENT_TO_PROVIDER);
    RowsAreWritten(rows, steps);
    WrittenStays(rows, steps, k, u);
    FailureSticks(rows[r], Written(rows, steps));
    HitIsShown(Written(rows, steps), u, rows[r]);
    assert j.rows[r].status == ROW_FAILED;
    assert !SentTells(AfterSteps(rows, ScheduledSteps(answers, schedule)));
  }

  lemma OneAccepted()
    ensures var results := [SendResult(None, None, None, None)]; AnyAccepted(results) && !AnyFailed(results)
  {
    var results := [SendResult(None, None, None, None)];
    assert IsAccepted(results[0]);
  }

  lemma WrittenStays(rows: seq<Row>, steps: seq<Step>, k: nat, u: Update)
    requires k + 1 == |steps| && u in Written(rows, steps[..k])
    ensures u in Written(rows, steps)
  {
    hide AfterSteps, Wrote;
  }

  lemma HitIsShown(updates: seq<Update>, u: Update, row: Row)
    requires u in updates && !u.accepted && Matches(u.selector, row)
    ensures HitByFailure(updates, row)
  {
    hide Matches;
  }

  /** Under a schedule of faults, SENT_TO_PROVIDER tells that no row failed, whatever the provider
      answers, exactly when no attempt that can lose its writes after storing a failure is
      followed by one whose writes are kept. */
  lemma SentTellsUnderIff(rows: seq<Row>, schedule: seq<BulkFaults>)
    requires Fresh(rows) && exists r | 0 <= r < |rows| :: rows[r].recipientGroupingKey != ""
    ensures SentTellsUnder(rows, schedule) <==> !CanMislead(schedule)
  {
    hide AfterSteps, SentTells, CanStore, WritesKept, Fresh;
    if CanMislead(schedule) {
      var i, k :| 0 <= i < k < |schedule| && k < BULK_ATTEMPTS && CanStore(schedule[i]) && WritesKept(schedule[k]);
      var r :| 0 <= r < |rows| && rows[r].recipientGroupingKey != "";
      StoredFailureMisleads(rows, r, i, k, schedule);
    } else {
      forall answers: seq<Answer> | |answers| <= |schedule|
        ensures SentTells(AfterSteps(rows, ScheduledSteps(answers, schedule)))
      {
        MisleadingWasStored(rows, answers, schedule);
      }
    }
  }

  /** So writes that are lost leave their mark: a recipient that failed in an attempt whose campaign
      row could not be written can stay failed, although the next attempt is accepted in full
      and the campaign is SENT_TO_PROVIDER. */
  lemma LostFailureStays(rows: seq<Row>, r: nat)
    requires Fresh(rows) && r < |rows| && rows[r].recipientGroupingKey != ""
    ensures !SentTellsUnder(rows, [BulkFaults(None, true, false), BulkFaults(None, false, false)])
  {
    hide SentTellsUnder;
    var schedule := [BulkFaults(None, true, false), BulkFaults(None, false, false)];
    assert CanStore(schedule[0]) && WritesKept(schedule[1]);
    SentTellsUnderIff(rows, schedule);
  }

  // ------------------------------------ exactly when an accepted campaign can fail

  /** One of the first five attempts can lose the writes after its send, and it is the fifth or
      another attempt follows. */
  predicate CanFailAccepted(schedule: seq<BulkFaults>) {
    exists i | 0 <= i < |schedule| && i < BULK_ATTEMPTS ::
      !WritesKept(schedule[i]) && (i == BULK_ATTEMPTS - 1 || i + 1 < |schedule|)
  }

  predicate AcceptedAndFailed(j: Job) {
    j.sends >= 1 && j.phase == Failed
  }

  ghost predicate AcceptedNeverFails(rows: seq<Row>, schedule: seq<BulkFaults>) {
    forall answers: seq<Answer> | |answers| <= |schedule| ::
      !AcceptedAndFailed(AfterSteps(rows, ScheduledSteps(answers, schedule)))
  }

  lemma {:induction false} FailedNeedsLoss(rows: seq<Row>, answers: seq<Answer>, schedule: seq<BulkFaults>)
    requires |answers| <= |schedule|
    ensures AcceptedAndFailed(AfterSteps(rows, ScheduledSteps(answers, schedule))) ==> CanFailAccepted(schedule)
  {
    hide BulkAttempt, BulkBounded, WritesKept;
    var steps := ScheduledSteps(answers, schedule);
    if steps != [] {
      var n := |steps| - 1;
      FailedNeedsLoss(rows, answers[..n], schedule);
      assert steps[..n] == ScheduledSteps(answers[..n], schedule);
      var before := AfterSteps(rows, steps[..n]);
      BulkJobIsBounded(rows, steps[..n]);
      RepeatNeedsLoss(rows, steps[..n]);
      BulkAttemptCounts(before, steps[n].answer, steps[n].faults);
      BulkJobEndsIff(before, steps[n].answer, steps[n].faults);
      if before.phase == Queued && before.sends >= 1 {
        var i :| 0 <= i < n && i < BULK_ATTEMPTS - 1 && !WritesKept(steps[..n][i].faults);
        assert steps[..n][i].faults == schedule[i];
      } else if before.phase == Queued && AcceptedAndFailed(AfterSteps(rows, steps)) {
        assert steps[n].faults == schedule[n] && n == BULK_ATTEMPTS - 1;
        assert !WritesKept(schedule[n]);
      }
    }
  }

  /** Retryable errors up to one answer, and then an error that is not retried. */
  function OneAnswer(i: nat, n: nat): seq<Answer> {
    seq(n, x => if x == i then Answers([]) else if x < i then Answer.Throws(Other) else Answer.Throws(Unrecoverable))
  }

  lemma {:induction false} OneAnswerRun(rows: seq<Row>, i: nat, n: nat, schedule: seq<BulkFaults>)
    requires i < |schedule| && i < BULK_ATTEMPTS && !WritesKept(schedule[i]) && n <= i + 2 && n <= |schedule|
    requires n == i + 2 ==> i < BULK_ATTEMPTS - 1
    ensures var j := AfterSteps(rows, ScheduledSteps(OneAnswer(i, n), schedule));
            && j.sends == (if n <= i then 0 else 1)
            && j.phase == (if n <= i then Queued
                           else if n == i + 1 then (if i == BULK_ATTEMPTS - 1 then Failed else Queued)
                           else Failed)
    decreases n
  {
    hide BulkAttempt, BulkBounded, WritesKept;
    if n > 0 {
      var m := n - 1;
      var steps := ScheduledSteps(OneAnswer(i, n), schedule);
      OneAnswerRun(rows, i, m, schedule);
      assert steps[..m] == ScheduledSteps(OneAnswer(i, m), schedule);
      BulkJobIsBounded(rows, steps[..m]);
      RepeatNeedsLoss(rows, steps[..m]);
      BulkAttemptCounts(AfterSteps(rows, steps[..m]), steps[m].answer, steps[m].faults);
      BulkJobEndsIff(AfterSteps(rows, steps[..m]), steps[m].answer, steps[m].faults);
    }
  }

  /** Under a schedule of faults, a campaign that the provider has accepted never ends failed,
      whatever it answers, exactly when no attempt can lose the writes after its send but one
      with which the schedule ends before the fifth. */
  lemma AcceptedNeverFailsIff(rows: seq<Row>, schedule: seq<BulkFaults>)
    ensures AcceptedNeverFails(rows, schedule) <==> !CanFailAccepted(schedule)
  {
    hide AfterSteps, WritesKept;
    if CanFailAccepted(schedule) {
      var i :| 0 <= i < |schedule| && i < BULK_ATTEMPTS
               && !WritesKept(schedule[i]) && (i == BULK_ATTEMPTS - 1 || i + 1 < |schedule|);
      var n := if i == BULK_ATTEMPTS - 1 then i + 1 else i + 2;
      OneAnswerRun(rows, i, n, schedule);
      assert |OneAnswer(i, n)| == n;
      assert AcceptedAndFailed(AfterSteps(rows, ScheduledSteps(OneAnswer(i, n), schedule)));
    } else {
      forall answers: seq<Answer> | |answers| <= |schedule|
        ensures !AcceptedAndFailed(AfterSteps(rows, ScheduledSteps(answers, schedule)))
      {
        FailedNeedsLoss(rows, answers, schedule);
      }
    }
  }

  // ------------------------------------------------------ the bound is tight

  /** The provider answers every time, and the write of the campaign row is lost. */
  function Lost(results: seq<SendResult>, n: nat): seq<Step> {
    seq(n, _ => Step(Answers(results), BulkFaults(None, true, false)))
  }

  lemma {:induction false} EveryCampaignSendRepeats(rows: seq<Row>, results: seq<SendResult>, n: nat)
    requires n < BULK_ATTEMPTS
    ensures var j := AfterSteps(rows, Lost(results, n));
            j == Job(PROCESSING_CAMPAIGN, false, j.rows, Queued, n, n)
  {
    hide WorkerUpdates, UpdatedRows, Wrote;
    if n > 0 {
      EveryCampaignSendRepeats(rows, results, n - 1);
      assert Lost(results, n)[..n - 1] == Lost(results, n - 1);
    }
  }

  /** Five sends are reached, and the campaign ends up FAILED even if the provider accepted all of them. */
  lemma FiveSendsAreReached(rows: seq<Row>, results: seq<SendResult>)
    ensures var j := AfterSteps(rows, Lost(results, BULK_ATTEMPTS));
            j == Job(Done(FAILED), false, j.rows, Failed, BULK_ATTEMPTS, BULK_ATTEMPTS)
  {
    hide WorkerUpdates, UpdatedRows, Wrote;
    var n := BULK_ATTEMPTS;
    EveryCampaignSendRepeats(rows, results, n - 1);
    assert Lost(results, n)[..n - 1] == Lost(results, n - 1);
  }
}
