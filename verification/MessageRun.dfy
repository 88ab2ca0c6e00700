/** One message request and its queue job: the worker's `processMessage`, the queue's
    attempt budget and the `failed` handler, with faults of every database write. */
module MessageRun {
  import opened Wrappers

  const ATTEMPTS := 8

  datatype Status =
    | ACCEPTED | PROCESSING | SENT_TO_PROVIDER
    | DELIVERED | DELIVERY_FAILED | SEND_FAILED | CANCELED | DEAD

  /** The statuses on which the worker returns without doing anything. */
  predicate Terminal(s: Status) {
    s in {DELIVERED, DELIVERY_FAILED, SEND_FAILED, CANCELED, DEAD}
  }

  /** The statuses from which a user may send again. */
  predicate FailedStatus(s: Status) {
    s in {SEND_FAILED, DELIVERY_FAILED, DEAD}
  }

  /** What an attempt can throw: an `UnrecoverableError`, an HTTP error with its response
      status if there was a response, or anything else, such as a failed database write. */
  datatype Error = Unrecoverable | Http(response: Option<nat>) | Other

  predicate IsRetryable(e: Error) {
    match e
    case Unrecoverable => false
    case Http(response) => response == None || response.value == 0 || response.value == 429 || response.value >= 500
    case Other => true
  }

  datatype AttemptRow = AttemptRow(attemptNumber: nat, error: Option<Error>)

  datatype Phase = NoJob | Queued | Completed | Failed

  /** `sends` counts how often the provider accepted the message; it is not stored anywhere. */
  datatype Run = Run(
    status: Status,
    attemptCount: nat,
    attempts: seq<AttemptRow>,
    deadLetters: nat,
    phase: Phase,
    attemptsMade: nat,
    sends: nat)

  const NEW_RUN := Run(ACCEPTED, 0, [], 0, NoJob, 0, 0)

  /** What happens inside the `try` block: preparation or the send throws, the AlimTalk
      template turns out not to be approved, or the provider accepts the message. */
  datatype Outcome = Throws(error: Error) | TemplateNotApproved | Accepts

  /** Which database writes of an attempt fail. A timeout after the provider has accepted acts
      like a failing `row`: nothing is stored and an error that is retried is caught. */
  datatype Faults = Faults(start: bool, notApproved: bool, row: bool, sent: bool, errorRow: bool, failed: bool,
                           handlerStatus: bool, handlerLetter: bool)

  const NO_FAULTS := Faults(false, false, false, false, false, false, false, false)

  // --------------------------------------------------------- the worker, pure

  /** An attempt row is unique per request and attempt number. */
  predicate RowExists(attempts: seq<AttemptRow>, n: nat) {
    exists i | 0 <= i < |attempts| :: attempts[i].attemptNumber == n
  }

  /** The `try` block: the new state and the error that is caught, if any. */
  function TryBlock(r: Run, n: nat, outcome: Outcome, f: Faults): (Run, Option<Error>) {
    match outcome
    case Throws(e) => (r, Some(e))
    case TemplateNotApproved =>
      if f.notApproved then (r, Some(Other)) else (r.(status := SEND_FAILED), Some(Unrecoverable))
    case Accepts =>
      var sent := r.(sends := r.sends + 1);
      if f.row || RowExists(sent.attempts, n) then (sent, Some(Other))
      else
        var logged := sent.(attempts := sent.attempts + [AttemptRow(n, None)]);
        if f.sent then (logged, Some(Other)) else (logged.(status := SENT_TO_PROVIDER), None)
  }

  /** The `catch` block: the new state and the error that is thrown on. */
  function CatchBlock(r: Run, n: nat, e: Error, f: Faults): (Run, Error) {
    if f.errorRow || RowExists(r.attempts, n) then (r, Other)
    else
      var logged := r.(attempts := r.attempts + [AttemptRow(n, Some(e))]);
      if IsRetryable(e) then (logged, e)
      else if f.failed then (logged, Other)
      else (logged.(status := SEND_FAILED), Unrecoverable)
  }

  /** One call of `processMessage`. */
  function ProcessMessage(r: Run, outcome: Outcome, f: Faults): (Run, Option<Error>) {
    if Terminal(r.status) then (r, None)
    else if f.start then (r, Some(Other))
    else
      var started := r.(status := PROCESSING, attemptCount := r.attemptCount + 1);
      var n := r.attemptCount + 1;
      var (tried, caught) := TryBlock(started, n, outcome, f);
      match caught
      case None => (tried, None)
      case Some(e) =>
        var (after, thrown) := CatchBlock(tried, n, e, f);
        (after, Some(thrown))
  }

  /** The queue and the `failed` handler after a call. */
  function AfterAttempt(r: Run, thrown: Option<Error>, f: Faults): Run {
    match thrown
    case None => r.(phase := Completed)
    case Some(e) =>
      var made := r.(attemptsMade := r.attemptsMade + 1);
      if e == Unrecoverable || made.attemptsMade >= ATTEMPTS then
        var ended := made.(phase := Failed);
        if f.handlerStatus then ended
        else
          var dead := if Terminal(ended.status) then ended else ended.(status := DEAD);
          if f.handlerLetter then dead else dead.(deadLetters := dead.deadLetters + 1)
      else made
  }

  /** One attempt of the job, if the job is waiting for one. */
  function Attempt(r: Run, outcome: Outcome, f: Faults): Run {
    if r.phase != Queued then r
    else
      var (after, thrown) := ProcessMessage(r, outcome, f);
      AfterAttempt(after, thrown, f)
  }

  /** `queue.add` with a job id: a second job for the same request is ignored. */
  function Enqueue(r: Run): Run {
    if r.phase == NoJob then r.(phase := Queued) else r
  }

  /** Between attempts, delivery results or a cancellation may arrive for a request that has not ended. */
  function Environment(r: Run, s: Status): Run {
    if !Terminal(r.status) && s in {DELIVERED, DELIVERY_FAILED, CANCELED} then r.(status := s) else r
  }

  // ------------------------------------------------------------- invariants

  /** Attempt numbers increase and lie between 1 and `n`. */
  predicate Numbered(attempts: seq<AttemptRow>, n: nat) {
    && (forall i | 0 <= i < |attempts| :: 1 <= attempts[i].attemptNumber <= n)
    && (forall i, j | 0 <= i < j < |attempts| :: attempts[i].attemptNumber < attempts[j].attemptNumber)
  }

  /** Holds in every run, whatever writes fail. */
  predicate Bounded(r: Run) {
    && r.attemptsMade <= ATTEMPTS
    && (r.phase == Queued ==> r.attemptsMade < ATTEMPTS)
    && (r.phase == NoJob ==> r.attemptsMade == 0 && r.attemptCount == 0)
    && r.attemptCount <= r.attemptsMade + (if r.phase == Completed then 1 else 0)
    && r.attemptCount <= ATTEMPTS
    && r.sends <= r.attemptCount
    && (r.status == SENT_TO_PROVIDER ==> r.sends >= 1)
    && Numbered(r.attempts, r.attemptCount)
    && r.deadLetters <= (if r.phase == Failed then 1 else 0)
  }

  /** Holds in every run, whatever writes fail: a completed job leaves the request sent or
      terminal, DEAD takes all attempts, and only a completed job leaves a request as sent. */
  predicate Concluded(r: Run) {
    && (r.phase == Completed ==> r.status == SENT_TO_PROVIDER || Terminal(r.status))
    && (r.status == DEAD ==> r.phase == Failed && r.attemptsMade == ATTEMPTS)
    && (r.status == SENT_TO_PROVIDER ==> r.phase == Completed)
  }

  /** The provider has accepted the message at most once, and only if the job has completed. */
  predicate SentAtMostOnce(r: Run) {
    r.sends <= 1 && (r.sends == 1 ==> r.phase == Completed)
  }

  /** The attempt rows are numbered exactly 1 to the attempt count. */
  predicate RowsComplete(r: Run) {
    && |r.attempts| == r.attemptCount
    && forall i | 0 <= i < |r.attempts| :: r.attempts[i].attemptNumber == i + 1
  }

  /** The job still runs, or has run out of attempts. */
  predicate Unsettled(r: Run) {
    r.phase != Completed && (!Terminal(r.status) || r.status == DEAD)
  }

  /** The attempt count of an unsettled request is the number of failed attempts. */
  predicate Counted(r: Run) {
    Unsettled(r) ==> r.attemptCount == r.attemptsMade
  }

  /** All logged attempts of an unsettled request have failed, with errors that are retried. */
  predicate RetriedOnly(r: Run) {
    Unsettled(r) ==> forall i | 0 <= i < |r.attempts| :: Retried(r.attempts[i])
  }

  predicate Retried(row: AttemptRow) {
    row.error.Some? && IsRetryable(row.error.value)
  }

  /** There is one dead letter when the job has failed and none otherwise, and a failed job leaves a
      request that a user may send again. */
  predicate LettersMatch(r: Run) {
    && r.deadLetters == (if r.phase == Failed then 1 else 0)
    && (r.phase == Failed ==> r.status in {SEND_FAILED, DEAD})
  }

  // ---------------------------------------- the faults that the invariants survive

  /** The next attempt will do something. */
  predicate Active(r: Run) {
    r.phase == Queued && !Terminal(r.status)
  }

  /** An accepted send is logged and marked. */
  predicate SendSafe(outcome: Outcome, f: Faults) {
    outcome.Accepts? ==> f.start || (!f.row && !f.sent)
  }

  /** An attempt that starts gets a row: that of the send, or else that of the error. */
  predicate RowKept(outcome: Outcome, f: Faults) {
    f.start || !f.errorRow || (outcome.Accepts? && !f.row)
  }

  /** No attempt logs a success, or an error that is not retried, without settling the request. */
  predicate ErrorsSettle(outcome: Outcome, f: Faults) {
    f.start ||
    match outcome
    case Throws(e) => IsRetryable(e) || f.errorRow || !f.failed
    case TemplateNotApproved => true
    case Accepts => f.row || !f.sent
  }

  /** The attempt sends the message, logs it and marks it. */
  predicate Succeeds(outcome: Outcome, f: Faults) {
    outcome.Accepts? && !f.start && !f.row && !f.sent
  }

  /** The attempt throws an `UnrecoverableError`. */
  predicate Fatal(outcome: Outcome, f: Faults) {
    && !f.start && !f.errorRow && !f.failed
    && match outcome
       case Throws(e) => !IsRetryable(e)
       case TemplateNotApproved => !f.notApproved
       case Accepts => false
  }

  /** The attempt marks the request as one that cannot be sent: its error is logged and is not
      retried, or its template is not approved. */
  predicate MarksFailed(outcome: Outcome, f: Faults) {
    && !f.start
    && match outcome
       case Throws(e) => !IsRetryable(e) && !f.errorRow && !f.failed
       case TemplateNotApproved => !f.notApproved
       case Accepts => false
  }

  /** The next attempt is the last one and fails. */
  predicate EndsFailed(r: Run, outcome: Outcome, f: Faults) {
    Active(r) && (Fatal(outcome, f) || (!Succeeds(outcome, f) && r.attemptsMade == ATTEMPTS - 1))
  }

  // What a step must meet to keep each of the invariants; a step that does nothing meets all of them.

  predicate KeepsSend(r: Run, outcome: Outcome, f: Faults) {
    Active(r) ==> SendSafe(outcome, f)
  }

  predicate KeepsRow(r: Run, outcome: Outcome, f: Faults) {
    Active(r) ==> RowKept(outcome, f)
  }

  predicate KeepsCount(r: Run, outcome: Outcome, f: Faults) {
    Active(r) ==> !f.start
  }

  predicate KeepsRetried(r: Run, outcome: Outcome, f: Faults) {
    Active(r) ==> ErrorsSettle(outcome, f)
  }

  predicate KeepsLetter(r: Run, outcome: Outcome, f: Faults) {
    EndsFailed(r, outcome, f) ==> !f.handlerStatus && !f.handlerLetter
  }

  lemma NumberIsNew(r: Run)
    requires Bounded(r)
    ensures !RowExists(r.attempts, r.attemptCount + 1)
    ensures RowExists(r.attempts + [AttemptRow(r.attemptCount + 1, None)], r.attemptCount + 1)
  {
    var logged := r.attempts + [AttemptRow(r.attemptCount + 1, None)];
    assert logged[|r.attempts|].attemptNumber == r.attemptCount + 1;
  }

  lemma TryKeepsNumbers(r: Run, n: nat, outcome: Outcome, f: Faults)
    requires n >= 1 && Numbered(r.attempts, n)
    ensures var t := TryBlock(r, n, outcome, f).0;
            && Numbered(t.attempts, n)
            && t == r.(status := t.status, attempts := t.attempts, sends := t.sends)
            && r.sends <= t.sends <= r.sends + 1
            && (t.status == SENT_TO_PROVIDER ==> t.sends > r.sends || r.status == SENT_TO_PROVIDER)
  {}

  lemma CatchKeepsNumbers(r: Run, n: nat, e: Error, f: Faults)
    requires n >= 1 && Numbered(r.attempts, n)
    ensures var t := CatchBlock(r, n, e, f).0;
            && Numbered(t.attempts, n)
            && t == r.(status := t.status, attempts := t.attempts)
            && (t.status == SENT_TO_PROVIDER ==> r.status == SENT_TO_PROVIDER)
  {}

  /** `attemptCount`, the attempt rows, the sends and the dead letters stay within their bounds in every step. */
  lemma AttemptKeepsBounds(r: Run, outcome: Outcome, f: Faults)
    requires Bounded(r)
    ensures Bounded(Attempt(r, outcome, f))
  {
    hide TryBlock, CatchBlock, Numbered;
    var n := r.attemptCount + 1;
    var started := r.(status := PROCESSING, attemptCount := n);
    assert Numbered(r.attempts, n) by { MoreNumbers(r.attempts, r.attemptCount); }
    TryKeepsNumbers(started, n, outcome, f);
    var (tried, caught) := TryBlock(started, n, outcome, f);
    if caught.Some? {
      CatchKeepsNumbers(tried, n, caught.value, f);
    }
  }

  lemma MoreNumbers(attempts: seq<AttemptRow>, n: nat)
    requires Numbered(attempts, n)
    ensures Numbered(attempts, n + 1)
  {}

  lemma AttemptConcludes(r: Run, outcome: Outcome, f: Faults)
    requires Bounded(r) && Concluded(r)
    ensures Concluded(Attempt(r, outcome, f))
  {
    hide Numbered, RowExists;
  }

  /** When a job ends: it completes exactly when the message is sent, logged and marked, and it
      fails exactly on an unrecoverable error or on the eighth failed attempt. Everything
      else, failed writes of the worker included, is tried again. */
  lemma JobEndsIff(r: Run, outcome: Outcome, f: Faults)
    requires Bounded(r) && Active(r)
    ensures var after := Attempt(r, outcome, f);
            && (after.phase == Completed <==> Succeeds(outcome, f))
            && (after.phase == Failed <==> EndsFailed(r, outcome, f))
            && (after.phase != Completed ==> after.attemptsMade == r.attemptsMade + 1)
  {
    hide RowExists;
    NumberIsNew(r);
  }

  /** The status that an attempt of an active job leaves: SENT_TO_PROVIDER exactly when it succeeds,
      SEND_FAILED exactly when it marks the request so, and DEAD exactly when the job ends
      without either and the handler's write succeeds; else PROCESSING, once it has started.
      It never sets DELIVERED, DELIVERY_FAILED or CANCELED, and an idle job changes nothing. */
  lemma AttemptLeaves(r: Run, outcome: Outcome, f: Faults)
    requires Bounded(r)
    ensures !Active(r) ==> Attempt(r, outcome, f).status == r.status
    ensures Active(r) ==>
              Attempt(r, outcome, f).status
              == if Succeeds(outcome, f) then SENT_TO_PROVIDER
                 else if MarksFailed(outcome, f) then SEND_FAILED
                 else if EndsFailed(r, outcome, f) && !f.handlerStatus then DEAD
                 else if f.start then r.status
                 else PROCESSING
  {
    hide RowExists, Numbered;
    NumberIsNew(r);
  }

  /** A request that has not ended takes whatever delivery result or cancellation arrives, and an
      ended one takes none. */
  lemma EnvironmentIsHeard(r: Run, s: Status)
    ensures var after := Environment(r, s);
            && after == r.(status := after.status)
            && (r.status in {ACCEPTED, PROCESSING, SENT_TO_PROVIDER} && s in {DELIVERED, DELIVERY_FAILED, CANCELED} ==>
                  after.status == s)
            && (r.status !in {ACCEPTED, PROCESSING, SENT_TO_PROVIDER} ==> after == r)
  {}

  /** Which errors are retried: those without a response, rate limits, server errors and whatever
      is not an HTTP error, unless the job was ended on purpose. */
  lemma RetriedErrorsAre(e: Error)
    ensures !IsRetryable(e) <==>
            e == Unrecoverable
            || (e.Http? && e.response.Some? && 1 <= e.response.value < 500 && e.response.value != 429)
  {}

  /** A step keeps the message sent at most once exactly when an accepted send of an active job is logged and marked. */
  lemma AttemptSendsOnce(r: Run, outcome: Outcome, f: Faults)
    requires Bounded(r) && SentAtMostOnce(r)
    ensures SentAtMostOnce(Attempt(r, outcome, f)) <==> KeepsSend(r, outcome, f)
  {
    hide RowExists;
    NumberIsNew(r);
  }

  /** What attempt `n` logs. */
  function Logged(n: nat, outcome: Outcome, f: Faults): seq<AttemptRow> {
    if f.start then []
    else if outcome.Accepts? && !f.row then [AttemptRow(n, None)]
    else if f.errorRow then []
    else [AttemptRow(n, Some(Caught(outcome, f)))]
  }

  /** The error that is caught when no row of a send has been written. */
  function Caught(outcome: Outcome, f: Faults): Error {
    match outcome
    case Throws(e) => e
    case TemplateNotApproved => if f.notApproved then Other else Unrecoverable
    case Accepts => Other
  }

  lemma ProcessLogs(r: Run, outcome: Outcome, f: Faults)
    requires Bounded(r) && !Terminal(r.status)
    ensures var after := ProcessMessage(r, outcome, f).0;
            && after.attempts == r.attempts + Logged(r.attemptCount + 1, outcome, f)
            && after.attemptCount == r.attemptCount + (if f.start then 0 else 1)
  {
    hide Numbered, RowExists, Terminal;
    NumberIsNew(r);
    assert r.attempts + [] == r.attempts;
  }

  lemma QueueKeepsRows(r: Run, thrown: Option<Error>, f: Faults)
    ensures AfterAttempt(r, thrown, f).attempts == r.attempts
    ensures AfterAttempt(r, thrown, f).attemptCount == r.attemptCount
  {}

  lemma AttemptLogs(r: Run, outcome: Outcome, f: Faults)
    requires Bounded(r)
    ensures var after := Attempt(r, outcome, f);
            if Active(r) then
              && after.attempts == r.attempts + Logged(r.attemptCount + 1, outcome, f)
              && after.attemptCount == r.attemptCount + (if f.start then 0 else 1)
            else after.attempts == r.attempts && after.attemptCount == r.attemptCount
  {
    hide ProcessMessage, AfterAttempt, Logged, Bounded;
    if Active(r) {
      ProcessLogs(r, outcome, f);
    } else if r.phase == Queued {
      TerminalIsSkipped(r, outcome, f);
    }
    var (after, thrown) := ProcessMessage(r, outcome, f);
    QueueKeepsRows(after, thrown, f);
  }

  lemma TerminalIsSkipped(r: Run, outcome: Outcome, f: Faults)
    requires Terminal(r.status)
    ensures ProcessMessage(r, outcome, f) == (r, None)
  {}

  lemma AttemptKeepsRows(r: Run, outcome: Outcome, f: Faults)
    requires Bounded(r) && RowsComplete(r)
    ensures RowsComplete(Attempt(r, outcome, f)) <==> KeepsRow(r, outcome, f)
  {
    hide Attempt, Bounded;
    AttemptLogs(r, outcome, f);
  }

  lemma AttemptIsCounted(r: Run, outcome: Outcome, f: Faults)
    requires Bounded(r) && Concluded(r) && Counted(r)
    ensures Counted(Attempt(r, outcome, f)) <==> KeepsCount(r, outcome, f)
  {
    hide RowExists;
    NumberIsNew(r);
  }

  /** Where an attempt leaves the request unsettled. */
  lemma AttemptUnsettled(r: Run, outcome: Outcome, f: Faults)
    requires Bounded(r) && Concluded(r) && r.phase == Queued
    ensures Unsettled(Attempt(r, outcome, f))
       <==> (&& Active(r) && !Succeeds(outcome, f) && !Fatal(outcome, f)
             && !(outcome.TemplateNotApproved? && !f.start && !f.notApproved))
  {
    hide Numbered, RowExists;
    NumberIsNew(r);
  }

  lemma RetriedConcat(a: seq<AttemptRow>, b: seq<AttemptRow>)
    ensures (forall i | 0 <= i < |a + b| :: Retried((a + b)[i]))
       <==> (forall i | 0 <= i < |a| :: Retried(a[i])) && (forall i | 0 <= i < |b| :: Retried(b[i]))
  {
    assert forall i | 0 <= i < |a| :: (a + b)[i] == a[i];
    assert forall i | 0 <= i < |b| :: (a + b)[|a| + i] == b[i];
  }

  lemma AttemptKeepsRetried(r: Run, outcome: Outcome, f: Faults)
    requires Bounded(r) && Concluded(r) && RetriedOnly(r)
    ensures RetriedOnly(Attempt(r, outcome, f)) <==> KeepsRetried(r, outcome, f)
  {
    hide Attempt, Bounded, Retried;
    if r.phase == Queued {
      AttemptLogs(r, outcome, f);
      AttemptUnsettled(r, outcome, f);
      RetriedConcat(r.attempts, Logged(r.attemptCount + 1, outcome, f));
      LoggedRetried(r.attemptCount + 1, outcome, f);
    } else {
      NothingAttempted(r, outcome, f);
    }
  }

  lemma NothingAttempted(r: Run, outcome: Outcome, f: Faults)
    requires r.phase != Queued
    ensures Attempt(r, outcome, f) == r
  {}

  lemma LoggedRetried(n: nat, outcome: Outcome, f: Faults)
    ensures Fatal(outcome, f) || Succeeds(outcome, f) || (outcome.TemplateNotApproved? && !f.start && !f.notApproved)
            || ((forall i | 0 <= i < |Logged(n, outcome, f)| :: Retried(Logged(n, outcome, f)[i]))
               <==> ErrorsSettle(outcome, f))
    ensures Fatal(outcome, f) || Succeeds(outcome, f) ==> ErrorsSettle(outcome, f)
  {
    var rows := Logged(n, outcome, f);
    assert |rows| <= 1;
    if rows != [] {
      assert (forall i | 0 <= i < |rows| :: Retried(rows[i])) <==> Retried(rows[0]);
    }
  }

  lemma AttemptWritesLetter(r: Run, outcome: Outcome, f: Faults)
    requires Bounded(r) && LettersMatch(r)
    ensures LettersMatch(Attempt(r, outcome, f)) <==> KeepsLetter(r, outcome, f)
  {
    if Active(r) { JobEndsIff(r, outcome, f); }
  }

  /** A status on which the worker returns is never changed by an attempt or by the environment. */
  lemma TerminalIsNeverLeft(r: Run, outcome: Outcome, f: Faults, s: Status)
    requires Terminal(r.status)
    ensures Attempt(r, outcome, f).status == r.status
    ensures Environment(r, s).status == r.status
    ensures Enqueue(r).status == r.status
  {}

  // ------------------------------------------------ the bound on sends is tight

  /** Neither the attempt row of a send nor the row of the error that follows can be written. */
  const ROWS_LOST := NO_FAULTS.(row := true, errorRow := true)

  function AcceptedAgain(n: nat): Run {
    if n == 0 then Enqueue(NEW_RUN) else Attempt(AcceptedAgain(n - 1), Accepts, ROWS_LOST)
  }

  lemma SendRepeats(r: Run)
    requires r.phase == Queued && r.status in {ACCEPTED, PROCESSING} && r.attemptsMade < ATTEMPTS - 1
    ensures Attempt(r, Accepts, ROWS_LOST)
         == r.(status := PROCESSING, attemptCount := r.attemptCount + 1, attemptsMade := r.attemptsMade + 1,
            sends := r.sends + 1)
  {
    hide RowExists;
  }

  /** Every one of the attempts sends the message again. */
  lemma {:induction false} EverySendRepeats(n: nat)
    requires n < ATTEMPTS
    ensures AcceptedAgain(n) == Run(if n == 0 then ACCEPTED else PROCESSING, n, [], 0, Queued, n, n)
  {
    hide Attempt;
    if n > 0 {
      EverySendRepeats(n - 1);
      SendRepeats(AcceptedAgain(n - 1));
    }
  }

  /** When the write after the send is lost each time, the provider accepts one message 8
      times and the request still ends up DEAD, with a dead letter. */
  lemma EightSendsAreReached()
    ensures AcceptedAgain(ATTEMPTS) == Run(DEAD, ATTEMPTS, [], 1, Failed, ATTEMPTS, ATTEMPTS)
  {
    EverySendRepeats(ATTEMPTS - 1);
  }

  // --------------------------------------------- exactly when a message repeats

  /** A job under a fixed schedule of faults, for what its attempts turn out to be. */
  function Scheduled(outcomes: seq<Outcome>, schedule: seq<Faults>): Run
    requires |outcomes| <= |schedule|
  {
    if outcomes == [] then Enqueue(NEW_RUN)
    else
      var n := |outcomes| - 1;
      Attempt(Scheduled(outcomes[..n], schedule), outcomes[n], schedule[n])
  }

  /** Among the first eight attempts, one that starts can lose the writes after a send, and a later one starts. */
  predicate CanRepeat(schedule: seq<Faults>) {
    exists i, j | 0 <= i < j < |schedule| && j < ATTEMPTS ::
      !SendSafe(Accepts, schedule[i]) && !schedule[j].start
  }

  lemma {:induction false} ScheduledIsBounded(outcomes: seq<Outcome>, schedule: seq<Faults>)
    requires |outcomes| <= |schedule|
    ensures var r := Scheduled(outcomes, schedule);
            Bounded(r) && r.phase != NoJob && (r.phase == Queued ==> r.attemptsMade == |outcomes|)
  {
    hide Bounded;
    if outcomes == [] {
      EnqueuedIsBounded();
    } else {
      var n := |outcomes| - 1;
      ScheduledIsBounded(outcomes[..n], schedule);
      var r := Scheduled(outcomes[..n], schedule);
      AttemptKeepsBounds(r, outcomes[n], schedule[n]);
      AttemptCounts(r, outcomes[n], schedule[n]);
    }
  }

  lemma EnqueuedIsBounded()
    ensures Bounded(Enqueue(NEW_RUN)) && Concluded(Enqueue(NEW_RUN))
  {}

  lemma AttemptCounts(r: Run, outcome: Outcome, f: Faults)
    requires r.phase != NoJob
    ensures var after := Attempt(r, outcome, f);
            && after.phase != NoJob
            && (after.phase == Queued ==> r.phase == Queued && after.attemptsMade == r.attemptsMade + 1)
            && (after.sends == r.sends || (after.sends == r.sends + 1 && Active(r) && outcome.Accepts? && !f.start))
            && (Active(r) && outcome.Accepts? && !f.start ==> after.sends == r.sends + 1)
  {
    hide RowExists;
  }

  /** A repeated send comes from a schedule that allows one. */
  lemma {:induction false} RepeatNeedsLoss(outcomes: seq<Outcome>, schedule: seq<Faults>)
    requires |outcomes| <= |schedule|
    ensures var r := Scheduled(outcomes, schedule);
            && (r.sends >= 1 && r.phase == Queued ==>
                  exists i | 0 <= i < |outcomes| :: !SendSafe(Accepts, schedule[i]))
            && (r.sends >= 2 ==> CanRepeat(schedule))
  {
    hide Bounded, Attempt, SendSafe, CanRepeat;
    if outcomes != [] {
      var n := |outcomes| - 1;
      var r := Scheduled(outcomes[..n], schedule);
      RepeatNeedsLoss(outcomes[..n], schedule);
      ScheduledIsBounded(outcomes[..n], schedule);
      AttemptCounts(r, outcomes[n], schedule[n]);
      UnsafeSendIsLost(r, outcomes[n], schedule[n]);
      if r.sends >= 1 && Active(r) && outcomes[n].Accepts? && !schedule[n].start {
        QueuedHasAttempts(r);
        var i :| 0 <= i < n && !SendSafe(Accepts, schedule[i]);
        LossAllowsRepeat(schedule, i, n);
      }
    }
  }

  lemma QueuedHasAttempts(r: Run)
    requires Bounded(r) && r.phase == Queued
    ensures r.attemptsMade < ATTEMPTS
  {}

  lemma LossAllowsRepeat(schedule: seq<Faults>, i: nat, j: nat)
    requires i < j < |schedule| && j < ATTEMPTS && !SendSafe(Accepts, schedule[i]) && !schedule[j].start
    ensures CanRepeat(schedule)
  {}

  /** A job that goes on after a send has lost the writes of it. */
  lemma UnsafeSendIsLost(r: Run, outcome: Outcome, f: Faults)
    requires Bounded(r)
    ensures var after := Attempt(r, outcome, f);
            after.phase == Queued && after.sends > r.sends ==> !SendSafe(Accepts, f)
  {
    hide RowExists;
    NumberIsNew(r);
  }

  /** Nothing but retryable errors, and accepted sends at two given attempts. */
  function TwoSends(i: nat, j: nat, n: nat): seq<Outcome> {
    seq(n, k => if k == i || k == j then Accepts else Throws(Other))
  }

  lemma {:induction false} TwoSendsRun(i: nat, j: nat, n: nat, schedule: seq<Faults>)
    requires i < j < ATTEMPTS && n <= j < |schedule|
    requires !SendSafe(Accepts, schedule[i]) && !schedule[j].start
    ensures var r := Scheduled(TwoSends(i, j, n), schedule);
            Active(r) && r.sends == (if n > i then 1 else 0)
    decreases n
  {
    hide Attempt, RowExists;
    if n > 0 {
      TwoSendsRun(i, j, n - 1, schedule);
      assert TwoSends(i, j, n)[..n - 1] == TwoSends(i, j, n - 1);
      var r := Scheduled(TwoSends(i, j, n - 1), schedule);
      ScheduledIsBounded(TwoSends(i, j, n - 1), schedule);
      LostAttemptGoesOn(r, TwoSends(i, j, n)[n - 1], schedule[n - 1]);
    }
  }

  lemma LostAttemptGoesOn(r: Run, outcome: Outcome, f: Faults)
    requires Bounded(r) && Active(r) && r.attemptsMade < ATTEMPTS - 1
    requires outcome == Throws(Other) || (outcome == Accepts && !SendSafe(Accepts, f))
    ensures var after := Attempt(r, outcome, f);
            Active(after) && after.sends == r.sends + (if outcome == Accepts then 1 else 0)
  {
    hide RowExists;
  }

  ghost predicate SentOnceUnder(schedule: seq<Faults>) {
    forall outcomes: seq<Outcome> | |outcomes| <= |schedule| :: Scheduled(outcomes, schedule).sends <= 1
  }

  /** Under a schedule of faults the provider accepts a message at most once, whatever the
      attempts turn out to be, exactly when no attempt that can lose the writes after its send
      is followed by one that starts. */
  lemma SentOnceIff(schedule: seq<Faults>)
    ensures SentOnceUnder(schedule) <==> !CanRepeat(schedule)
  {
    hide Scheduled, Bounded, SendSafe;
    if CanRepeat(schedule) {
      var i, j :| 0 <= i < j < |schedule| && j < ATTEMPTS && !SendSafe(Accepts, schedule[i]) && !schedule[j].start;
      RepeatHappens(i, j, schedule);
      assert Scheduled(TwoSends(i, j, j + 1), schedule).sends == 2;
    } else {
      forall outcomes: seq<Outcome> | |outcomes| <= |schedule| ensures Scheduled(outcomes, schedule).sends <= 1 {
        RepeatNeedsLoss(outcomes, schedule);
      }
    }
  }

  lemma {:induction false} RepeatHappens(i: nat, j: nat, schedule: seq<Faults>)
    requires i < j < |schedule| && j < ATTEMPTS && !SendSafe(Accepts, schedule[i]) && !schedule[j].start
    ensures Scheduled(TwoSends(i, j, j + 1), schedule).sends == 2
  {
    hide Attempt, Bounded;
    var outcomes := TwoSends(i, j, j + 1);
    TwoSendsRun(i, j, j, schedule);
    assert outcomes[..j] == TwoSends(i, j, j);
    ScheduledIsBounded(outcomes[..j], schedule);
    AttemptCounts(Scheduled(outcomes[..j], schedule), outcomes[j], schedule[j]);
  }

  // ------------------------------------ exactly when an accepted message can fail

  /** The attempt can end the job with an unrecoverable error. */
  predicate CanBeFatal(f: Faults) {
    !f.start && !f.errorRow && !f.failed
  }

  /** After attempt `i` the job can end failed: by running out of attempts, or by a later unrecoverable error. */
  predicate CanEndAfter(schedule: seq<Faults>, i: nat) {
    |schedule| >= ATTEMPTS || exists j | i < j < |schedule| :: CanBeFatal(schedule[j])
  }

  /** One of the first eight attempts can lose the writes after its send, and the job can end failed after it. */
  predicate CanFailAccepted(schedule: seq<Faults>) {
    exists i | 0 <= i < |schedule| && i < ATTEMPTS :: !SendSafe(Accepts, schedule[i]) && CanEndAfter(schedule, i)
  }

  predicate AcceptedAndFailed(r: Run) {
    r.sends >= 1 && r.phase == Failed
  }

  ghost predicate AcceptedNeverFails(schedule: seq<Faults>) {
    forall outcomes: seq<Outcome> | |outcomes| <= |schedule| :: !AcceptedAndFailed(Scheduled(outcomes, schedule))
  }

  /** The attempt after which an accepted message has failed. */
  lemma FailingAttempt(r: Run, outcome: Outcome, f: Faults)
    requires Bounded(r) && r.phase == Queued && AcceptedAndFailed(Attempt(r, outcome, f))
    ensures CanBeFatal(f) || r.attemptsMade == ATTEMPTS - 1
    ensures r.sends == 0 ==> !SendSafe(Accepts, f) && r.attemptsMade == ATTEMPTS - 1
  {
    NumberIsNew(r);
    if Active(r) { JobEndsIff(r, outcome, f); }
  }

  lemma {:induction false} FailedNeedsLoss(outcomes: seq<Outcome>, schedule: seq<Faults>)
    requires |outcomes| <= |schedule|
    ensures AcceptedAndFailed(Scheduled(outcomes, schedule)) ==> CanFailAccepted(schedule)
  {
    hide Bounded, Attempt, SendSafe, CanBeFatal;
    if outcomes != [] && AcceptedAndFailed(Scheduled(outcomes, schedule)) {
      var n := |outcomes| - 1;
      var r := Scheduled(outcomes[..n], schedule);
      FailedNeedsLoss(outcomes[..n], schedule);
      RepeatNeedsLoss(outcomes[..n], schedule);
      ScheduledIsBounded(outcomes[..n], schedule);
      if r.phase == Queued {
        QueuedHasAttempts(r);
        FailingAttempt(r, outcomes[n], schedule[n]);
        if r.sends >= 1 {
          var i :| 0 <= i < n && !SendSafe(Accepts, schedule[i]);
          assert CanEndAfter(schedule, i);
        } else {
          assert CanEndAfter(schedule, n);
        }
      } else {
        NothingAttempted(r, outcomes[n], schedule[n]);
      }
    }
  }

  /** Retryable errors, an accepted send at attempt `i`, and an unrecoverable error at attempt `j`. */
  function SendThenFatal(i: nat, j: nat, n: nat): seq<Outcome> {
    seq(n, k => if k == i then Accepts else if k == j then Throws(Unrecoverable) else Throws(Other))
  }

  lemma {:induction false} SendThenGoesOn(i: nat, j: nat, n: nat, schedule: seq<Faults>)
    requires i < |schedule| && !SendSafe(Accepts, schedule[i])
    requires i < j && n <= j && n <= |schedule| && n < ATTEMPTS
    ensures var r := Scheduled(SendThenFatal(i, j, n), schedule);
            Active(r) && r.sends == (if n > i then 1 else 0)
    decreases n
  {
    hide Attempt, RowExists;
    if n > 0 {
      SendThenGoesOn(i, j, n - 1, schedule);
      assert SendThenFatal(i, j, n)[..n - 1] == SendThenFatal(i, j, n - 1);
      ScheduledIsBounded(SendThenFatal(i, j, n - 1), schedule);
      var r := Scheduled(SendThenFatal(i, j, n - 1), schedule);
      LostAttemptGoesOn(r, SendThenFatal(i, j, n)[n - 1], schedule[n - 1]);
    }
  }

  /** The accepted message fails: with its eighth attempt, or with the unrecoverable error. */
  lemma {:induction false} FailureHappens(i: nat, schedule: seq<Faults>) returns (outcomes: seq<Outcome>)
    requires i < |schedule| && i < ATTEMPTS && !SendSafe(Accepts, schedule[i]) && CanEndAfter(schedule, i)
    ensures |outcomes| <= |schedule| && AcceptedAndFailed(Scheduled(outcomes, schedule))
  {
    hide Attempt, Bounded;
    var j := ATTEMPTS;
    if |schedule| < ATTEMPTS {
      j :| i < j < |schedule| && CanBeFatal(schedule[j]);
    }
    var last := if j < ATTEMPTS then j else ATTEMPTS - 1;
    outcomes := SendThenFatal(i, j, last + 1);
    SendThenGoesOn(i, j, last, schedule);
    assert outcomes[..last] == SendThenFatal(i, j, last);
    ScheduledIsBounded(outcomes[..last], schedule);
    var r := Scheduled(outcomes[..last], schedule);
    AttemptCounts(r, outcomes[last], schedule[last]);
    JobEndsIff(r, outcomes[last], schedule[last]);
  }

  /** Under a schedule of faults, a message that the provider has accepted never ends failed,
      whatever the outcomes, exactly when after no attempt that can lose the writes after its
      send the job can still end: by the eighth attempt, or by a later unrecoverable error. */
  lemma AcceptedNeverFailsIff(schedule: seq<Faults>)
    ensures AcceptedNeverFails(schedule) <==> !CanFailAccepted(schedule)
  {
    hide Scheduled, SendSafe, CanEndAfter;
    if CanFailAccepted(schedule) {
      var i :| 0 <= i < |schedule| && i < ATTEMPTS && !SendSafe(Accepts, schedule[i]) && CanEndAfter(schedule, i);
      var outcomes := FailureHappens(i, schedule);
    } else {
      forall outcomes: seq<Outcome> | |outcomes| <= |schedule|
        ensures !AcceptedAndFailed(Scheduled(outcomes, schedule))
      {
        FailedNeedsLoss(outcomes, schedule);
      }
    }
  }
}
