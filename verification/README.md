# Verification of the messaging backend

The backend takes send requests through an API, stores them, hands them to a queue, and lets a
worker render and send them with retries. This project models that behaviour in Dafny and proves
what it is meant to guarantee, over all inputs and all runs.

There are four groups of modules.

- **Text.** `JsText` (trimming, lines, digits), `SmsText` (byte length, truncation, message class,
  MMS title), `AdFormat` (advertisement formatting), `Placeholders` (the placeholder regex as a
  backtracking matcher and as a scanner, and the renderer), `StringOrder`, `TemplateVariables`,
  `EventRules` (save-time checks of a rule against its templates), `NhnTemplate` (rewriting to the
  provider's `##key##` form).
- **Requests over time.** `Schedules` (when a message is to be sent), `MessageRun` (one request and its job), `Store` (requests, campaigns,
  limits and the SMS ledger as one state machine), `StoreRuns`, `RetryFamilies`, `Replay` and
  `SmsQuota` (what every run of the machine keeps), `MessagingStore` (the services and the worker as
  an object that changes its tables in place, method by method equal to the steps of the machine),
  `Calendar` (KST months and days), `Backoff` (the delays).
- **Bulk sends.** `FirstOccurrence`, `ManualRecipients`, `BulkDraft` (the draft loops), `BulkResults`
  (matching provider results to recipients), `BulkRun` (the queued campaign job), `Delivery`
  (delivery lookups, counts and the campaign status).
- **Imports.** `UserMapping` (reading values by path, storing them as JSON).

A database transaction is one atomic step. What the provider answers, which database writes fail,
whether the queue takes a job, the clock and the random source are inputs. Instants are milliseconds
since the epoch, and Korean time is the fixed offset of nine hours. A text is a sequence of Unicode
scalar values; its order is that of UTF-16 code units.

## Where the code and its promises differ

- The worker formats a stored advertisement again without the stored opt-out text, so the approved
  080 number of the sender is replaced by the default one. The body still fits
  (`AdFormat.AcceptedManualSmsIsSent`), but it is what was stored only for the default number
  (`AdFormat.StoredIsSentIff`, `AdFormat.ApprovedLineIsReplaced`).
- `create` reads the clock once for the quota check and once for the reservation. The quota is kept
  exactly when both readings of an accepted SMS fall in one KST month (`SmsQuota.CreateIsSafeIffMonthsAgree`).
- The README of the repository says that a repeated idempotency key gives back the same request. The code
  checks the schedule before it looks the key up, so a scheduled request that is repeated at or after its
  time is refused (`Replay.LateReplayIsRefused`); exactly when it gives back the row is
  `Replay.ReplayChangesNothing`, and for the AlimTalk endpoint, which also checks the account and the
  event first, `Replay.PublReplayChangesNothing`.
- A request is committed before its job is queued. If the queue fails then, the call fails, but the row
  stays `ACCEPTED` without a job, and repeating the call answers that it is accepted and queues nothing
  (`Replay.LostJobIsNeverMade`); exactly when every request has its job is `StoreRuns.EveryRequestHasItsJob`.
- The README of the repository says that a message goes to `DEAD` after at most 8 back-offs for 429,
  5xx and timeouts. The code makes 8 attempts with 7 delays, and it also retries every error that is
  not an HTTP error, including its own failed writes (`MessageRun.JobEndsIff`).
- When the writes after a send are lost, a message can be sent 8 times and a campaign 5 times
  (`MessageRun.EightSendsAreReached`, `BulkRun.FiveSendsAreReached`). Exactly when a second send can
  happen is `MessageRun.SentOnceIff` and `BulkRun.CampaignSentOnceIff`, and exactly when what the
  provider accepted can end as failed is `MessageRun.AcceptedNeverFailsIff` and
  `BulkRun.AcceptedNeverFailsIff`.
- A campaign can be `SENT_TO_PROVIDER` with a failed recipient, when an earlier attempt lost its
  writes (`BulkRun.LostFailureStays`); exactly when, for a run and for a schedule of faults, is
  `BulkRun.QueuedStatusAgreesIff` and `BulkRun.SentTellsUnderIff`.
- The status of a campaign and its recipients can disagree, for example after an answer without
  results (`BulkResults.StatusWithoutCoverage`); exactly when is `BulkResults.StatusAgreesIff`.
- A literal such as `##a##` is filled by the provider and not by the renderer when `a` is a variable
  of the same template (`NhnTemplate.HashLiteralIsFilled`); exactly which templates are sent right
  is `BulkDraft.TemplateIsSentRightIff`.
- The queued worker matches results by grouping key only, the direct send also by phone and by
  position (`BulkResults.WorkerAgreesIff`).
- A recipient that failed locally and has no delivery lookup is shown as failed and counted as
  pending (`Delivery.FailedCountIsShownIff`).
- The month window holds the instant it is computed from only for KST years from 100 on
  (`Calendar.WindowContainsInstant`).
- Reading by two paths in a row is not reading by the joined path when the first one fans out over an
  array and the second one starts with an index (`UserMapping.CompositionHoldsIff`).

## Model

| member | source | states |
|---|---|---|
| `JsText.LineEndsBecomeNewlines` | packages/shared/src/index.ts:49-51 | for any lines and any mixture of CRLF, CR and LF between them, normalising newlines keeps the lines and puts one LF between them |
| `JsText.NormalizeConcat` | packages/shared/src/index.ts:49-51 | a text that is cut anywhere but inside a CRLF is normalised part by part |
| `SmsText.GetDomesticSmsByteLength` | packages/shared/src/index.ts:53-62 | the loop's total is the SMS byte length of the text with newlines normalised |
| `SmsText.LineEndsCountOnce` | packages/shared/src/index.ts:49-62 | however its lines end, the byte length of a text is that of its lines and one for every line end |
| `SmsText.BytesAre` | packages/shared/src/index.ts:53-62 | the byte length is the number of characters exactly for ASCII texts and twice that exactly for texts without ASCII |
| `SmsText.ClassIsExact` | packages/shared/src/index.ts:82-103 | a body is over the limit exactly above 2000 bytes, and else an MMS exactly with attachments, an SMS up to 90 bytes and an LMS above |
| `SmsText.TruncateDomesticSmsText` | packages/shared/src/index.ts:64-80 | the loop, which stops at the first character that does not fit, computes the truncation that the next two rows characterise |
| `SmsText.TruncatedIsLongestPrefix` | packages/shared/src/index.ts:64-80 | truncation is the trim of the longest prefix of the normalised text within the budget, and there is one longest prefix |
| `SmsText.TruncateIsIdempotent` | packages/shared/src/index.ts:64-80 | truncating twice with one budget is truncating once |
| `SmsText.TitleSourceIs` | packages/shared/src/index.ts:105-115 | a title comes from the preferred title unless that is blank, else from the first line of the body that is not, and else it is the default |
| `SmsText.TitleIsTruncatedSource` | packages/shared/src/index.ts:105-115 | an MMS title is the truncated title source and never empty, so the last fallback is never taken |
| `SmsText.StoredTitleIsStable` | apps/worker/src/index.ts:362-366 | a title is at most 40 bytes and not empty, and the worker, which builds it again from the stored title, sends exactly the stored one |
| `AdFormat.FormattingAgain` | packages/shared/src/index.ts:180-237 | formatting a formatted advertisement again never adds bytes, shortens it unless it is a fixed point, and is a fixed point exactly when no opt-out line surfaced on top of the content and, with a service name, the content does not start with the prefix |
| `AdFormat.FormattingConverges` | packages/shared/src/index.ts:204-237 | repeated formatting reaches a fixed point within as many rounds as the first result has characters |
| `AdFormat.FirstAndLastLine` | packages/shared/src/index.ts:180-237 | the first line of a formatted advertisement is the prefix with the service name, the last one is the opt-out text, and no line in between is one except possibly the first line of the content |
| `AdFormat.OrdinaryBodyIsKept` | packages/shared/src/index.ts:204-237 | a normalised body without opt-out lines that does not start with the prefix is kept, character for character, between prefix and opt-out text |
| `AdFormat.LineEndsMakeNoDifference` | packages/shared/src/index.ts:204-237 | a body is formatted alike whichever line ends it has, and a plain one to its trimmed lines |
| `AdFormat.OptOutLineIs` | packages/shared/src/index.ts:200-202 | an opt-out line is exactly the word, white space, 080 and at least one more digit, dash or white space |
| `AdFormat.Reformat` | packages/shared/src/index.ts:180-237 | formatting a formatted advertisement with any opt-out text keeps the frame and changes the content to what stripping leaves of it |
| `AdFormat.SanitizeIsStable` | packages/shared/src/index.ts:174-178 | a sanitised service name is one trimmed line with single blanks and is not changed by sanitising |
| `AdFormat.DefaultIsShortest` | apps/api/src/message-requests/message-requests.service.ts:1903-1915 | the opt-out text of every approved 080 number is one opt-out line and no shorter than the default one |
| `AdFormat.NumberIsGrouped` | apps/api/src/bulk-sms/bulk-sms.service.ts:453-465 | a number of 10 or 11 digits is printed as its first three digits, its last four and those between them, any other text as it is |
| `AdFormat.AcceptedManualSmsIsSent` | apps/worker/src/index.ts:698-717 | a manual SMS that the API accepted is never over the limit in the worker; plain bodies are sent as stored, advertisements do not grow and end with the default opt-out line |
| `AdFormat.ManualSmsAcceptedIff` | apps/api/src/message-requests/message-requests.service.ts:632-672 | the API accepts a manual SMS exactly when it is not blank and its stored body has at most 2000 bytes |
| `AdFormat.StoredIsSentIff` | apps/worker/src/index.ts:698-717 | an advertisement is sent exactly as stored exactly when the approved number is the default one and the content survives a second formatting |
| `AdFormat.ApprovedLineIsReplaced` | apps/api/src/message-requests/message-requests.service.ts:1903-1915 | for the approved number 080-123-4567, no advertisement is sent as stored, whatever its body |
| `Placeholders.BacktrackIsScan` | packages/shared/src/index.ts:32-47 | the backtracking match of each alternative of the placeholder regex succeeds exactly when the text up to the first closing brace is not empty and the closing follows, and captures that text up to white space at its ends |
| `Placeholders.ScanPrintsBack` | packages/shared/src/index.ts:32-47 | scanning splits any body into literals and well-formed placeholders that print back to that body |
| `Placeholders.MatchIsComplete` | packages/shared/src/index.ts:32-47 | a match is found exactly where the text starts with `{{` or `#{`, a non-empty inside without `}`, and the closing of that form |
| `Placeholders.ScanMissesNone` | packages/shared/src/index.ts:32-47 | no character that the scan takes as a literal starts a placeholder |
| `Placeholders.KeysAreTrimmed` | packages/shared/src/index.ts:32-47 | keys are trimmed and contain no closing brace |
| `Placeholders.RenderIsSubstitution` | packages/shared/src/index.ts:135-143 | rendering succeeds exactly when every key, a blank one included, is present, and is then substitution segment by segment; otherwise it names a key that is missing |
| `StringOrder.SortedIsUnique` | packages/shared/src/index.ts:117-121 | a strictly sorted list is determined by its set of elements |
| `StringOrder.SortedSetsAgree` | apps/api/src/event-rules/event-rules.service.ts:483-522 | two deduplicated, sorted lists are equal exactly when they stand for the same set |
| `TemplateVariables.CollectRequiredVariables` | packages/shared/src/index.ts:34-47 | the `exec` loop adds exactly the non-blank keys of the body to the set |
| `TemplateVariables.ExtractVariables` | packages/shared/src/index.ts:117-121 | collecting and sorting gives the list of the next row |
| `TemplateVariables.ExtractedIsSortedKeySet` | packages/shared/src/index.ts:117-121 | the required variables are the one strictly sorted list of the non-blank keys of the body |
| `TemplateVariables.Template.constructor` | apps/api/src/templates/templates.service.ts:32-60 | a new template has the variables of its body and version 1 of it |
| `TemplateVariables.Template.Update` | apps/api/src/templates/templates.service.ts:87-166 | an update keeps the stored variables those of the body, appends one version with the next number and the new body, and keeps all older versions |
| `EventRules.ListsMatchIffSetsMatch` | apps/api/src/event-rules/event-rules.service.ts:483-522 | two variable lists pass the comparison exactly when they name the same set |
| `EventRules.PairCheckIsRedundant` | apps/api/src/event-rules/event-rules.service.ts:384-480 | without the final comparison of the two templates with each other, every rule is accepted or refused as before, for the same reason |
| `EventRules.RuleIsSavedIff` | apps/api/src/event-rules/event-rules.service.ts:380-480 | a rule is saved exactly when no reason to refuse it holds, among them that a template it uses requires other variables, and the error names a reason that holds |
| `EventRules.ChannelIsResolvedIff` | apps/api/src/message-requests/message-requests.service.ts:1407-1494 | AlimTalk is taken whenever the strategy allows it and it is ready, SMS exactly when the strategy allows it, it is ready and AlimTalk is not taken, each with its own template |
| `EventRules.NothingMissing` | packages/shared/src/index.ts:150-158 | nothing is missing exactly when every required key has a value that is neither null nor empty |
| `EventRules.MatchedRuleCoversKeys` | apps/api/src/event-rules/event-rules.service.ts:455-522 | a rule that passed the comparison requires exactly the non-blank keys of the body |
| `EventRules.SavedRuleRenders` | apps/worker/src/index.ts:666-678 | for a rule in CUSTOM mode that was saved against its templates and a request accepted under it, the worker's rendering succeeds; with a blank placeholder it succeeds exactly when the payload has a blank variable |
| `NhnTemplate.RewritePreservesMeaning` | apps/api/src/bulk-sms/bulk-sms.service.ts:587-592 | filling parameters into the rewritten body equals rendering the original, when with these parameters the provider fills the marks of the rewriting and no others |
| `NhnTemplate.RewriteIsExactIff` | apps/api/src/bulk-sms/bulk-sms.service.ts:587-592 | for parameters of given names, among them the keys of the body, the rewriting preserves the meaning whatever their values exactly when no key is blank or has a `#` in it and no literal of the rewritten body reads as a mark of one of the names |
| `NhnTemplate.FewHashesAreOwn` | apps/api/src/bulk-sms/bulk-sms.service.ts:587-592 | this is so, for any names, for every template without two literal `#` next to each other and without blank keys or `#` in keys |
| `NhnTemplate.PlainBodiesAreOwn` | apps/api/src/bulk-sms/bulk-sms.service.ts:69-69 | and it is so for every body without placeholders, which is sent without parameters, whatever marks it seems to hold |
| `NhnTemplate.RewriteWithoutPlaceholders` | apps/worker/src/index.ts:116-121 | a body without placeholders is not changed by the rewriting |
| `NhnTemplate.RewriteIsMarked` | apps/api/src/bulk-sms/bulk-sms.service.ts:587-592 | the rewritten body is the literals of the scan as they are, `##key##` for every placeholder with a key, and nothing for a blank one |
| `NhnTemplate.HashLiteralIsFilled` | apps/api/src/bulk-sms/bulk-sms.service.ts:587-592 | in `##a## {{a}}` the literal is filled by the parameter that the template asks for, although the renderer leaves it alone |
| `Calendar.CivilIsInverse` | apps/api/src/sms-quota/sms-quota.service.ts:263-296 | day numbers and civil dates correspond one to one across leap years |
| `Calendar.DaysAreAnchored` | apps/api/src/sms-quota/sms-quota.service.ts:263-296 | day 0 is 1 January 1970 and day 11016 is 29 February 2000 |
| `Calendar.MonthIntervalIs` | apps/api/src/sms-quota/sms-quota.service.ts:263-296 | the interval of a civil month holds exactly the instants with a KST date in it |
| `Calendar.WindowContainsInstant` | apps/api/src/sms-quota/sms-quota.service.ts:263-278 | a month window holds its own instant exactly when the KST year is at least 100 |
| `Calendar.WindowStartsWith` | apps/api/src/sms-quota/sms-quota.service.ts:263-296 | month and day windows start in the month of the year that is covered: the own year from 100 on, and for earlier ones one that `Date.UTC` and the era make of it |
| `Calendar.WindowsPartition` | apps/api/src/sms-quota/sms-quota.service.ts:263-278 | month windows are equal exactly for instants of one KST month and disjoint otherwise |
| `Calendar.WindowsAbut` | apps/api/src/sms-quota/sms-quota.service.ts:263-278 | the window that follows starts where a window ends |
| `Calendar.DayWindowsTileMonth` | apps/api/src/sms-quota/sms-quota.service.ts:263-296 | the day windows of a month lie one after the other and fill its window exactly |
| `Calendar.DayWindowsPartition` | apps/api/src/sms-quota/sms-quota.service.ts:280-296 | two instants share a day window exactly when they have one KST date |
| `MessageRun.AttemptKeepsBounds` | apps/worker/src/index.ts:604-885 | whatever writes fail, attempts, attempt count, attempt numbers, sends and dead letters stay within their bounds in a step |
| `MessageRun.AttemptConcludes` | apps/worker/src/index.ts:604-885 | whatever writes fail, a completed job leaves the request sent or terminal, DEAD takes eight failed attempts, and a request marked as sent has a completed job |
| `MessageRun.JobEndsIff` | apps/worker/src/index.ts:1407-1440 | a job completes exactly when its message is sent, logged and marked, and fails exactly on an unrecoverable error or on its eighth failed attempt; failed writes are tried again like retryable errors |
| `MessageRun.AttemptLeaves` | apps/worker/src/index.ts:604-885 | an attempt leaves SENT_TO_PROVIDER exactly when it succeeds, SEND_FAILED exactly when the template is not approved or an error that is not retried is logged and settled, DEAD exactly when the job ends otherwise and the handler can write, and else PROCESSING once it has started; it sets no other status |
| `MessageRun.RetriedErrorsAre` | apps/worker/src/index.ts:81-98 | an error is not retried exactly when it ends the job on purpose or is an HTTP status below 500 other than 429 |
| `MessageRun.AttemptSendsOnce` | apps/worker/src/index.ts:604-885 | a step keeps the message sent at most once exactly when an accepted send of an active job is logged and marked |
| `MessageRun.SentOnceIff` | apps/worker/src/index.ts:604-885 | under a schedule of faults the provider accepts a message at most once, whatever the outcomes, exactly when no attempt that can lose the writes after its send is followed by one that starts, within the eight attempts |
| `MessageRun.AttemptKeepsRows` | apps/worker/src/index.ts:604-885 | a step keeps the attempt rows numbered exactly 1 to the attempt count exactly when an attempt that starts gets a row |
| `MessageRun.AttemptIsCounted` | apps/worker/src/index.ts:604-885 | a step keeps the attempt count equal to the failed attempts exactly when its first write succeeds |
| `MessageRun.AttemptKeepsRetried` | apps/worker/src/index.ts:604-885 | a step keeps the log of an unsettled request to retryable errors exactly when it logs no success and no final error without settling the request |
| `MessageRun.AttemptWritesLetter` | apps/worker/src/index.ts:1407-1440 | a step keeps one dead letter per failed job, with a terminal request, exactly when both writes of the `failed` handler succeed if it runs |
| `MessageRun.TerminalIsNeverLeft` | apps/worker/src/index.ts:625-627 | no step changes a status on which the worker returns |
| `MessageRun.EnvironmentIsHeard` | apps/worker/src/index.ts:625-627 | the statuses on which the worker returns are kept; in every other one a delivery result or a cancellation is taken between attempts |
| `MessageRun.EightSendsAreReached` | apps/worker/src/index.ts:604-885 | the bound of 8 sends is reached when the writes after a send are lost each time |
| `MessageRun.AcceptedNeverFailsIff` | apps/worker/src/index.ts:1407-1440 | under a schedule of faults, an accepted message never ends failed, whatever the outcomes, exactly when the job cannot end, by its eighth attempt or by an unrecoverable error, after any attempt that can lose the writes after its send |
| `StoreRuns.NextShape` | apps/api/src/message-requests/message-requests.service.ts:103-208 | every step of the backend only appends rows or changes the job of one row |
| `StoreRuns.RowsPersist` | apps/api/src/message-requests/message-requests.service.ts:103-208 | no row is ever removed and its identity never changes |
| `StoreRuns.ManualBatchReachesEveryPhone` | apps/api/src/message-requests/message-requests.service.ts:686-728 | a stored manual batch has one row per phone, in order, each with its own key; the rows up to where the queue fails, all of them if the batch is accepted, have a waiting job |
| `StoreRuns.JobsStayBounded` | apps/api/src/queue/queue.service.ts:64-80 | in every run, with any failing writes, each request has at most 8 attempts, 8 sends and one dead letter, distinct attempt numbers within its attempt count, a completed job only if it is sent or terminal, and DEAD only after 8 failed attempts |
| `StoreRuns.SendsHappenOnce` | apps/worker/src/index.ts:604-885 | in every run, each message is accepted at most once throughout, in the attempt that completes its job, exactly when no accepted send loses the writes after it |
| `StoreRuns.RowsStayComplete` | apps/worker/src/index.ts:604-885 | in every run, attempt rows are numbered 1 to the attempt count throughout exactly when every attempt that starts gets its row |
| `StoreRuns.AttemptsAreCounted` | apps/worker/src/index.ts:625-640 | in every run, the attempt count of unsettled requests is the number of failed attempts throughout exactly when the first write of every attempt succeeds |
| `StoreRuns.OnlyRetriedErrors` | apps/worker/src/index.ts:850-885 | in every run, the log of unsettled requests holds only errors that are retried throughout exactly when no attempt logs a success or a final error without settling the request |
| `StoreRuns.LettersStayMatched` | apps/worker/src/index.ts:1407-1440 | in every run, there is a dead letter exactly when the job failed, and then the request is SEND_FAILED or DEAD, so that a user may retry it, throughout, exactly when the writes of the `failed` handler succeed whenever it runs |
| `StoreRuns.JobsAreFaithful` | apps/worker/src/index.ts:604-885 | at the end of every run: completed and DEAD requests are as above with any faults, and sends, rows, dead letters and the eight logged retryable failures of a DEAD request each under the faults that they depend on and no others |
| `StoreRuns.OwnStatuses` | apps/worker/src/index.ts:604-885 | in every run, a request that no delivery result or cancellation touches is ACCEPTED, PROCESSING, SENT_TO_PROVIDER, SEND_FAILED or DEAD |
| `StoreRuns.EveryRequestHasItsJob` | apps/api/src/message-requests/message-requests.service.ts:205-205 | in every run, every request without a job is terminal, throughout, exactly when no call ends with a row stored whose job the queue did not take |
| `StoreRuns.JoblessStays` | apps/api/src/message-requests/message-requests.service.ts:205-205 | a request without a job never gets one, whatever is called later, so it is never attempted or sent |
| `RetryFamilies.FamiliesHold` | apps/api/src/message-requests/message-requests.service.ts:292-416 | in every run each retry points at an earlier failed root that is no retry and has the same owner, recipient and event, and older retries of a root have failed |
| `RetryFamilies.AtMostOneIsNotFailed` | apps/api/src/message-requests/message-requests.service.ts:511-530 | of any two members of a retry family one is in a failed status |
| `RetryFamilies.RetryAcceptedIff` | apps/api/src/message-requests/message-requests.service.ts:292-416 | in every run, a retry is accepted exactly when the request is the owner's, SEND_FAILED, DELIVERY_FAILED or DEAD, for AlimTalk, every retry of its root has failed, the key is new and the event is unknown or active without a refusal; it then adds one row with the owner, recipient and event of the request below the root, and otherwise changes nothing and names the first reason |
| `Replay.KeysStayUnique` | apps/api/src/message-requests/message-requests.service.ts:103-208 | in every run no owner has two rows with one idempotency key |
| `Replay.ReplayChangesNothing` | README.md:121-121 | once `create` has found or stored a row, every later call with that owner and key changes nothing, whatever happened in between and whatever it asks for, and answers with that row exactly when its schedule is in time as it arrives; otherwise it is refused for its schedule |
| `Replay.LateReplayIsRefused` | apps/api/src/message-requests/message-requests.service.ts:1886-1901 | so a scheduled request that was accepted gives back its row before its time and is refused when it is sent again, unchanged, at its time |
| `Replay.LostJobIsNeverMade` | apps/api/src/message-requests/message-requests.service.ts:103-208 | a request that was stored but whose job the queue did not take is answered as accepted when it is repeated in time, but in every run it never has a job and is never sent |
| `Replay.AcceptedRequestPersists` | apps/api/src/message-requests/message-requests.service.ts:103-208 | under a new key `create` stores a request exactly when its schedule, its rule and, for an SMS, its account and month allow it, and otherwise changes nothing and names the first reason; the row stays in the table for good as it was asked for, with a waiting job exactly if the queue took it and, for an SMS, one reservation for the scheduled instant or the clock reading |
| `Replay.PublReplayChangesNothing` | apps/api/src/message-requests/message-requests.service.ts:210-290 | whatever the AlimTalk endpoint is asked under the key of a stored row, nothing changes, and the row is the answer exactly when partner, account, event, phone and schedule are in order; otherwise it is refused, for its schedule if the rest is in order |
| `Replay.PublRequestPersists` | apps/api/src/message-requests/message-requests.service.ts:210-290 | under a new key the AlimTalk endpoint stores a request exactly when partner, account, event, phone, schedule and template allow it, and otherwise changes nothing and names the first reason; the row has the owner, key, event and phone asked for, stays for good, and is failed without a job if it is not ready and else waiting if the queue took it |
| `Replay.NewBatchIsInserted` | apps/api/src/message-requests/message-requests.service.ts:686-722 | a manual batch with an unused batch id never collides with itself |
| `Replay.BatchIsStoredIff` | apps/api/src/message-requests/message-requests.service.ts:686-728 | a manual batch is stored, rows and ledger in full, exactly when it has phones, a known account, room in the month and no key that is taken, and otherwise nothing changes and the first reason is named |
| `Replay.BatchKeyIs` | apps/api/src/message-requests/message-requests.service.ts:692-700 | the key of a batch row is the batch id, an underscore and the number of the row from 1 |
| `SmsQuota.UsageStatsAreOrdered` | apps/api/src/sms-quota/sms-quota.service.ts:179-231 | daily usage is at most monthly usage, which is at most lifetime usage, for every ledger |
| `SmsQuota.UsageNeverExceedsPeakLimit` | apps/api/src/sms-quota/sms-quota.service.ts:135-177 | over every run of reservations and limit updates, usage in a KST month never exceeds the largest limit the owner ever had |
| `SmsQuota.LimitIsSet` | apps/api/src/sms-quota/sms-quota.service.ts:114-128 | a limit that is set is the limit afterwards, for this owner only, and an unknown account changes nothing |
| `SmsQuota.BulkSmsAcceptedIff` | apps/api/src/bulk-sms/bulk-sms.service.ts:321-360 | a campaign is accepted exactly when it has recipients, a known account and fits the month, and otherwise the first reason is named; it is accounted in full, in that month only |
| `SmsQuota.CreateAcceptedIff` | apps/api/src/sms-quota/sms-quota.service.ts:135-177 | an SMS under a new key is stored exactly when its schedule is in time, the rule does not refuse it and the month of the check has room, is accounted in the month of the reservation only, and is accepted exactly when the queue also takes its job |
| `SmsQuota.CreateIsSafeIffMonthsAgree` | apps/api/src/message-requests/message-requests.service.ts:163-203 | `create` of an SMS keeps every store within its limits exactly when its schedule or its rule is refused or its two clock readings fall in one KST month |
| `SmsQuota.LedgerIsConserved` | apps/api/src/bulk-sms/bulk-sms.service.ts:321-360 | in every run an owner's ledger total is the number of the owner's SMS requests plus the recipients of the owner's SMS campaigns |
| `SmsQuota.ManualSmsLedger` | apps/api/src/message-requests/message-requests.service.ts:686-722 | a manual batch adds one ledger row per recipient or changes nothing at all |
| `MessagingStore.MessagingTables.CreateRequest` | apps/api/src/message-requests/message-requests.service.ts:103-208 | check of the schedule, look-up of the key, refusal by the rule, check of the quota, insert, reserve and enqueue, one after the other, are the `create` step of the machine |
| `MessagingStore.MessagingTables.CreateAcceptedPublEventRequest` | apps/api/src/message-requests/message-requests.service.ts:418-537 | the step that checks the schedule, looks the key up and stores an AlimTalk request, as failed without a job when the template is not ready |
| `MessagingStore.MessagingTables.CreateRequestFromPublEvent` | apps/api/src/message-requests/message-requests.service.ts:210-290 | the step of the AlimTalk endpoint: partner, account, event and phone are refused in this order before the schedule and the key are looked at |
| `MessagingStore.MessagingTables.CreateManualSmsRequests` | apps/api/src/message-requests/message-requests.service.ts:686-728 | the insert loop stores all recipients with their reservations, or nothing, and the enqueue loop adds their jobs in order until the queue fails |
| `MessagingStore.MessagingTables.CreateBulkSmsCampaign` | apps/api/src/bulk-sms/bulk-sms.service.ts:321-360 | the campaign step: checked, created and reserved, or nothing |
| `MessagingStore.MessagingTables.UpdateUserMonthlySmsLimit` | apps/api/src/sms-quota/sms-quota.service.ts:114-128 | the limit step; an unknown account changes nothing |
| `MessagingStore.MessagingTables.RetryRequest` | apps/api/src/message-requests/message-requests.service.ts:292-416 | the retry step with all its refusals |
| `MessagingStore.MessagingTables.ProcessMessageJob` | apps/worker/src/index.ts:604-885 | the writes of `processMessage`, in their order and with any of them failing, give the state and the error of the machine's attempt |
| `MessagingStore.MessagingTables.OnFailed` | apps/worker/src/index.ts:1407-1440 | the `failed` handler marks the request dead unless it is terminal and writes one dead letter, on the last attempt only |
| `MessagingStore.MessagingTables.RunAttempt` | apps/worker/src/index.ts:604-885 | one attempt of a job is one attempt step of the machine |
| `Backoff.DelayBounds` | packages/shared/src/index.ts:145-148 | each delay lies in a fixed interval around its table entry whatever the draw |
| `Backoff.BoundsAreReached` | packages/shared/src/index.ts:145-148 | both ends of each interval are reached |
| `Backoff.DelaysIncrease` | apps/worker/src/index.ts:1389-1395 | the delay after one more attempt is longer, whatever the two draws |
| `Backoff.TotalWait` | apps/api/src/queue/queue.service.ts:64-80 | 8 attempts wait 1179 to 1595 seconds in all, 5 attempts 57 to 77, and these bounds are reached |
| `FirstOccurrence.FirstsAre` | apps/api/src/bulk-sms/bulk-sms.service.ts:267-307 | the kept positions are, in order, exactly those where a key occurs first |
| `FirstOccurrence.FirstsAndRepeats` | apps/api/src/bulk-sms/bulk-sms.service.ts:267-307 | kept and repeated positions add up to the positions that have a key |
| `ManualRecipients.ResolveManualRecipientPhones` | apps/api/src/message-requests/message-requests.service.ts:1117-1150 | a list that is not empty comes to its different recipients with the limit counted on what is kept, and otherwise the single phone comes to itself if it has digits |
| `ManualRecipients.ResolvedPhonesAre` | apps/api/src/message-requests/message-requests.service.ts:1117-1150 | the kept phones differ in their digits and are exactly the trimmed entries with digits that no earlier entry has |
| `BulkDraft.BuildRecipientTemplateParameters` | apps/api/src/bulk-sms/bulk-sms.service.ts:500-526 | the parameters are the mapped required variables with their values, or the first one without a value is named |
| `BulkDraft.DraftRecipients` | apps/api/src/bulk-sms/bulk-sms.service.ts:267-307 | the loop drafts the first user of every phone in order, counts users without a phone and repeated phones, and fails exactly when a user to be drafted lacks a value, naming the first such user and variable, or nobody has a phone |
| `BulkDraft.CheckCampaign` | apps/api/src/bulk-sms/bulk-sms.service.ts:175-265 | each refusal before the drafts, for the schedule, the selection, the sender number, the template, the body, the 080 number and the mapping, has its reason, and if there is none everything is in order |
| `BulkDraft.PrepareCampaignDraft` | apps/api/src/bulk-sms/bulk-sms.service.ts:175-318 | the drafts are reached exactly when everything is in order, and then drafts, users without a phone and duplicates add up to the distinct selected users, all of whom exist |
| `BulkDraft.CampaignBodyIs` | apps/api/src/bulk-sms/bulk-sms.service.ts:200-245 | a plain campaign body is trimmed with LF line ends, and that of an advertisement starts with the prefix and the service name and ends with the approved 080 number |
| `BulkDraft.DraftsPartition` | apps/api/src/bulk-alimtalk/bulk-alimtalk.service.ts:306-349 | kept, skipped and duplicate users partition the users that were found |
| `BulkDraft.DraftsDiffer` | apps/api/src/bulk-sms/bulk-sms.service.ts:267-307 | phones and grouping keys of the drafts are pairwise distinct and selection order is kept |
| `BulkDraft.EveryPhoneIsDrafted` | apps/api/src/bulk-sms/bulk-sms.service.ts:267-307 | whoever has a phone is reached by a draft of the same or an earlier user |
| `BulkDraft.PhoneIsNormalized` | apps/api/src/bulk-sms/bulk-sms.service.ts:440-451 | a phone is normalised to its digits, less 746 if they start with 746010, and to nothing without digits |
| `BulkDraft.ParametersAreTheRequired` | apps/api/src/bulk-sms/bulk-sms.service.ts:500-526 | with every variable mapped, a draft's parameter names are exactly the required variables, and their values are the normalised phone or the trimmed text of the mapped field, never empty |
| `BulkDraft.DraftInTwoPasses` | apps/api/src/bulk-brand-message/bulk-brand-message.service.ts:223-341 | drafting first and filling parameters in a second pass ends with the drafts and counts of one pass, or with its failure, for the same user and variable |
| `BulkDraft.QueuedIsDirect` | apps/worker/src/index.ts:1041-1050 | the queued worker and the direct send decide alike on rewriting the body and send the same parameters |
| `BulkDraft.EveryRecipientGetsTheTemplate` | apps/api/src/bulk-sms/bulk-sms.service.ts:69-69 | what the provider makes of the body and a draft's parameters is the template rendered for that recipient, when the provider fills the marks of the rewriting and no others |
| `BulkDraft.TemplateIsSentRightIff` | apps/api/src/bulk-sms/bulk-sms.service.ts:69-69 | a body is sent right to every recipient, whoever the users are and however fields are mapped, exactly when no key is blank or has a `#` in it and no literal of the rewritten body reads as a mark of a key of the body |
| `BulkDraft.NormalizedPhoneIsStable` | apps/api/src/bulk-sms/bulk-sms.service.ts:440-451 | normalising a normalised phone changes nothing |
| `BulkResults.CollectUpdates` | apps/api/src/bulk-sms/bulk-sms.service.ts:83-122 | the loop gives one update per result that has a place, SENT_TO_PROVIDER exactly for a non-empty answer without failures, FAILED exactly without an accepted result |
| `BulkResults.ApplyUpdates` | apps/api/src/bulk-sms/bulk-sms.service.ts:104-117 | applying the updates in place changes each row by the updates that match it |
| `BulkResults.ResultFindsItsRecipient` | apps/api/src/bulk-sms/bulk-sms.service.ts:467-498 | by key, else by phone however written, else by position, a result finds exactly the row of its draft |
| `BulkResults.ResultIsAboutIff` | apps/api/src/bulk-sms/bulk-sms.service.ts:467-498 | a result selects exactly the rows with its grouping key, without one those with its normalised phone, and without digits that of its position |
| `BulkResults.FailureSticks` | apps/api/src/bulk-sms/bulk-sms.service.ts:104-117 | a row is failed at the end exactly when it was or some failed result is about it |
| `BulkResults.RefusedRecipientsFail` | apps/api/src/bulk-sms/bulk-sms.service.ts:83-135 | after a direct send a recipient is failed exactly when it was or a result with a code other than 0 is about it; the campaign is FAILED exactly when every result has such a code and SENT_TO_PROVIDER exactly when there are results and none has |
| `BulkResults.LastResultIsWritten` | apps/api/src/bulk-sms/bulk-sms.service.ts:104-117 | a recipient gets the sequence number of the last result that is about it, and one that no result is about is left as it is |
| `BulkResults.OrderDoesNotMatter` | apps/api/src/bulk-sms/bulk-sms.service.ts:117-117 | the order of the updates never changes a row's status, nor a row that at most one result is about |
| `BulkResults.StatusAgreesIff` | apps/api/src/bulk-sms/bulk-sms.service.ts:119-135 | for any results, SENT_TO_PROVIDER tells that no row failed exactly when there is a result and some failed result, if there is one, finds a recipient; FAILED tells that every row failed exactly when some recipient has no failed result, if any result is accepted, and every recipient has a result, if none is |
| `BulkResults.StatusTellsTheRows` | apps/api/src/bulk-sms/bulk-sms.service.ts:119-135 | so when every result finds a recipient and every recipient has a result the campaign is SENT_TO_PROVIDER exactly when no row failed and, without two results for one recipient, FAILED exactly when all did |
| `BulkResults.StatusWithoutCoverage` | apps/api/src/bulk-sms/bulk-sms.service.ts:119-135 | each of the three conditions of the row before is needed: without results, with two results for one recipient, and with a failed result that finds nobody, status and rows disagree |
| `BulkResults.WorkerAgreesIff` | apps/worker/src/index.ts:1059-1085 | the worker makes the updates of the direct send exactly when every result that has a place carries a grouping key |
| `BulkRun.BulkCampaign.ProcessBulkSmsCampaign` | apps/worker/src/index.ts:1013-1110 | the writes of the campaign job, with any of them failing, give the state and the error of the machine's call |
| `BulkRun.BulkCampaign.RunAttempt` | apps/worker/src/index.ts:1442-1460 | one attempt of the campaign job with its `failed` handler |
| `BulkRun.BulkJobIsBounded` | apps/worker/src/index.ts:1013-1110 | in every run a campaign has at most 5 attempts and 5 sends, and its request id is stored exactly when its job completed |
| `BulkRun.BulkJobEndsIff` | apps/worker/src/index.ts:1442-1460 | a campaign job completes exactly when an answer and the writes after it come through, fails exactly on an error that is not retried or on its fifth failed attempt, and then marks the campaign FAILED exactly when the write of the `failed` handler succeeds |
| `BulkRun.FinishedCampaignIsSkipped` | apps/worker/src/index.ts:1013-1040 | a campaign with a request id or a final status is not sent again |
| `BulkRun.CampaignIsSentOnce` | apps/worker/src/index.ts:1013-1110 | in every run, a campaign is sent once when its job completes and never otherwise, throughout, exactly when the writes succeed after every send |
| `BulkRun.CampaignSentOnceIff` | apps/worker/src/index.ts:1013-1110 | under a schedule of faults the provider accepts a campaign at most once, whatever it answers, exactly when no attempt but the last can lose the writes after its send |
| `BulkRun.FailedCampaignIsMarked` | apps/worker/src/index.ts:1442-1460 | in every run, a failed job leaves its campaign FAILED, throughout, exactly when the write of the `failed` handler succeeds whenever it runs |
| `BulkRun.RowsAreWritten` | apps/worker/src/index.ts:1063-1085 | in every run, whatever writes fail, the rows are those of the start with everything applied, in order, that the attempts have written |
| `BulkRun.FinishedCampaignIsFinal` | apps/worker/src/index.ts:1059-1103 | a completed campaign was completed by one attempt within the first five, which gave it its status and wrote all of its updates, and nothing was written after it |
| `BulkRun.QueuedStatusAgreesIff` | apps/worker/src/index.ts:1059-1103 | for every completed queued campaign, whatever its earlier attempts lost, exactly when its status agrees with its rows, by what they had written and by the answer that completed it; nothing was written earlier if no write after a send was lost |
| `BulkRun.KeyedAnswerTellsTheRows` | apps/worker/src/index.ts:1059-1085 | when nothing was written earlier and results carry keys, find their recipients and reach all of them, the status of a queued campaign tells what became of its rows, as for a direct send |
| `BulkRun.SentTellsUnderIff` | apps/worker/src/index.ts:1059-1103 | under a schedule of faults, SENT_TO_PROVIDER tells that no row failed, whatever the provider answers, exactly when no attempt that can lose its writes after storing a failure is followed by one whose writes are kept |
| `BulkRun.LostFailureStays` | apps/worker/src/index.ts:1059-1103 | so, for any rows, a recipient that failed in an attempt whose campaign write was lost can stay failed in a campaign that is SENT_TO_PROVIDER |
| `BulkRun.AcceptedNeverFailsIff` | apps/worker/src/index.ts:1442-1460 | under a schedule of faults, an accepted campaign never ends failed exactly when no attempt can lose the writes after its send, but for the last of a schedule that ends before the fifth |
| `BulkRun.FiveSendsAreReached` | apps/worker/src/index.ts:1013-1110 | the bound of 5 sends is reached, and the campaign ends FAILED whatever the provider answered |
| `Delivery.ResolveBulkCampaign` | apps/api/src/provider-results/provider-results.service.ts:210-284 | with its two indexes the loop finds what a last-match linear scan finds, its four counters and shown statuses are those of the scan, and the campaign status is what the signs in the lookups of its recipients make of it |
| `Delivery.SignsTell` | apps/api/src/provider-results/provider-results.service.ts:451-513 | a lookup with a failure code or word is DELIVERY_FAILED whatever else it holds, else one with a success code or word DELIVERED, else one with a sent word SENT_TO_PROVIDER, else WAITING or IN_PROGRESS by the schedule |
| `Delivery.RecipientIsTold` | apps/api/src/provider-results/provider-results.service.ts:229-275 | a recipient is counted failed, delivered or submitted exactly by the signs in its lookup, and shown so; without a lookup it is shown failed if it failed locally and else waiting or requested |
| `Delivery.CampaignIsTold` | apps/api/src/provider-results/provider-results.service.ts:535-567 | a campaign is FAILED exactly when every recipient is found failed, DELIVERED exactly when every one is found delivered, PARTIAL_FAILED when only some are found failed, else SENT_TO_PROVIDER when one is found sent, and else in progress, as it is without recipients |
| `Delivery.LookupIsTheLast` | apps/api/src/provider-results/provider-results.service.ts:216-243 | a recipient is told by the last lookup with its sequence number, and only if there is none by the last one with its phone, however written |
| `Delivery.LookupIgnoresOrder` | apps/api/src/provider-results/provider-results.service.ts:216-243 | when keys are distinct the order of the lookups does not matter |
| `Delivery.CountsAddUp` | apps/api/src/provider-results/provider-results.service.ts:229-275 | submitted, delivered, failed and pending add up to the number of recipients |
| `Delivery.StatusIsExact` | apps/api/src/provider-results/provider-results.service.ts:535-567 | with the total equal to the recipients each campaign status holds exactly for its kind of recipients, and the final fall-through is never reached |
| `Delivery.FailureCodes` | apps/api/src/provider-results/provider-results.service.ts:515-533 | no code is both success and failure, and a numeric code is a failure exactly when it has four digits without leading zeros |
| `Delivery.FailureCodesAre` | apps/api/src/provider-results/provider-results.service.ts:515-533 | the failure codes are MRC02 to MRC04 and the numbers, with or without a minus, of four or more digits after leading zeros, except 1000 |
| `Delivery.FailedCountIsShownIff` | apps/api/src/provider-results/provider-results.service.ts:245-259 | the failed count is the number of recipients shown as failed exactly when no locally failed recipient lacks a lookup |
| `UserMapping.CompositionHoldsIff` | apps/api/src/users/users.mapping.ts:163-195 | reading by one path and then another is reading by both together for every value exactly when the second path does not start with an index or the first consists of indices |
| `UserMapping.PathsCompose` | apps/api/src/users/users.mapping.ts:154-161 | the same for dotted paths |
| `UserMapping.DottedPathIsRead` | apps/api/src/users/users.mapping.ts:154-161 | a dotted path is read name by name |
| `UserMapping.TrimmedPartsAre` | apps/api/src/users/users.mapping.ts:154-161 | of the names of a path the blank ones are dropped and the others trimmed, in order |
| `UserMapping.ArrayIsRead` | apps/api/src/users/users.mapping.ts:163-195 | an item of an array is read by a name of digits, and any other name is read in all items |
| `UserMapping.ResultIsJson` | apps/api/src/users/users.mapping.ts:489-516 | the stored value has no null, undefined or date at any depth, and only null and undefined are dropped |
| `UserMapping.JsonIsFixed` | apps/api/src/users/users.mapping.ts:489-516 | exactly JSON values and undefined are stored unchanged, and storing twice is storing once |
| `UserMapping.LeavesAreStored` | apps/api/src/users/users.mapping.ts:489-516 | a date is stored as its ISO text, a value without a JSON form as its text, and texts, numbers and truth values as they are, wherever a path leads to them without a shift |
| `UserMapping.StoredFieldIsFieldStored` | apps/api/src/users/users.mapping.ts:480-516 | reading from the stored record is storing what is read from the record, when no dropped null shifts an index or changes what a fanned out array collapses to |
| `UserMapping.StoringCommutesIff` | apps/api/src/users/users.mapping.ts:480-516 | storing and reading change places for every value exactly along the empty path |

## Left out

- HTTP calls to the provider, response normalisers, uploads, mail and health checks: a send is an outcome.
- `NhnTemplate.ProviderFill` is how the provider is taken to fill `##key##` marks: from left to right, without looking at what it put in.
- BullMQ, Redis and Prisma: one attempt at a time, an unrecoverable error ends a job, a repeated job id is ignored, transactions are atomic. Redelivery of stalled jobs is not part of this model, nor is a failing `queue.add` for a campaign, which leaves it PROCESSING with its reservation.
- Interleaving inside a call: each is one step. `retryForUser` uses no transaction, and `create` and `createAcceptedPublEventRequest` look the key up outside theirs, so of two calls at the same time with one new key one fails on the unique key instead of getting the row.
- A provider answer that has no request id, which ends a job although the provider may have accepted: `SentOnceIff` and `AcceptedNeverFailsIff` count sends that are answered, or whose answer is lost by a timeout.
- The direct send of a campaign (`createCampaign`) with a send or a write that fails: the campaign then stays PROCESSING with its reservation and nothing handles it. `BulkResults` has its matching and its status, `BulkRun` the queued job with faults.
- The checks before the quota of a manual SMS batch (schedule, sender number, body, attachments): `Store.CreateManualSms` is the step after them, and `Store.CreateBulkSms` the step after `BulkDraft.CheckCampaign` and the drafts.
- Cancellation and scheduling under `v2`: a status may change to DELIVERED, DELIVERY_FAILED or CANCELED between attempts only, and only from a status that is not terminal.
- Event rules in DEFAULT binding mode at send time, and templates changed by other services: the default template is the provider's and may change after the rule is saved.
- `EventRules.SavedRuleRenders` does not cover a body that changes between saving the rule and sending, because nothing checks the rule again.
- Manual AlimTalk and brand message batches, and the AlimTalk and brand twins of the worker: the same shape without a quota.
- The choice of a display title, currency and dates by `Intl`: field values enter the draft loop as texts.
- Upper-casing in `mapLookupToStatus` and in imports: provider texts enter in upper case.
- Lone surrogates: a text is a sequence of Unicode scalar values.
- The range of JavaScript dates and the historical offsets of Asia/Seoul: instants are unbounded and the offset is fixed.
- `Backoff.Delay` is over the real numbers; rounding of binary floating point is not modelled.
- Properties found on prototypes by member access, and the field normalisers and the assignment loop of `normalizeManagedUserImportRecord`.
- UserMapping.StoredFieldIsFieldStored: the condition on the value is sufficient; where a dropped null shifts a place, the two readings then come from different items and agree only if these happen to read alike, which is no condition on one of them.
- Authentication, OAuth state, CSRF guards, controllers, the admin applications and the seed script.
- The default-sender flag, the 080 and sender-number reviews and the night window: one-branch decisions.
