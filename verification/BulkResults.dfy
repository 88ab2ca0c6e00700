/** Matching the provider's results of a bulk send back to the recipients of the campaign:
    the result loop of `createCampaign`, `buildBulkRecipientWhere`, and the variant of the
    queued worker. */
module BulkResults {
  import opened Wrappers
  import opened BulkDraft
  import opened JsText

  datatype RowStatus = REQUESTED | ROW_FAILED

  datatype Row = Row(recipientPhone: string, recipientGroupingKey: string, recipientSeq: Option<string>,
    status: RowStatus)

  datatype SendResult = SendResult(
    recipientGroupingKey: Option<string>,
    recipientNo: Option<string>,
    recipientSeq: Option<string>,
    resultCode: Option<string>)

  datatype CampaignStatus = SENT_TO_PROVIDER | PARTIAL_FAILED | FAILED

  datatype Where = ByKey(key: string) | ByPhone(phone: string)

  datatype Update = Update(selector: Where, recipientSeq: Option<string>, accepted: bool)

  predicate Truthy(text: Option<string>) {
    text.Some? && text.value != ""
  }

  predicate IsAccepted(result: SendResult) {
    result.resultCode == None || result.resultCode == Some("0")
  }

  /** The grouping key of the result, or else its phone, or else the recipient at its position. */
  function BuildBulkRecipientWhere(key: Option<string>, recipientNo: Option<string>,
                                   fallbackKey: Option<string>): Option<Where> {
    if Truthy(key) then Some(ByKey(key.value))
    else
      var phone := NormalizePhoneNumber(if recipientNo.Some? then recipientNo.value else "");
      if phone.Some? then Some(ByPhone(phone.value))
      else if Truthy(fallbackKey) then Some(ByKey(fallbackKey.value))
      else None
  }

  function FallbackKey(drafts: seq<Draft>, index: nat): Option<string> {
    if index < |drafts| then Some(drafts[index].recipientGroupingKey) else None
  }

  function WhereOf(drafts: seq<Draft>, results: seq<SendResult>, index: nat): Option<Where>
    requires index < |results|
  {
    BuildBulkRecipientWhere(results[index].recipientGroupingKey, results[index].recipientNo, FallbackKey(drafts, index))
  }

  predicate Matches(w: Where, row: Row) {
    match w
    case ByKey(key) => row.recipientGroupingKey == key
    case ByPhone(phone) => row.recipientPhone == phone
  }

  // ---------------------------------------------------------- the result loop

  function DirectUpdates(drafts: seq<Draft>, results: seq<SendResult>, n: nat): seq<Update>
    requires n <= |results|
  {
    if n == 0 then []
    else
      var w := WhereOf(drafts, results, n - 1);
      DirectUpdates(drafts, results, n - 1)
      + (if w.Some? then [Update(w.value, results[n - 1].recipientSeq, IsAccepted(results[n - 1]))] else [])
  }

  /** The worker uses a result only when it carries a grouping key. */
  function WorkerUpdates(results: seq<SendResult>, n: nat): seq<Update>
    requires n <= |results|
  {
    if n == 0 then []
    else
      var result := results[n - 1];
      WorkerUpdates(results, n - 1)
      + (if Truthy(result.recipientGroupingKey) then
           [Update(ByKey(result.recipientGroupingKey.value), result.recipientSeq, IsAccepted(result))]
         else [])
  }

  predicate AnyAccepted(results: seq<SendResult>) {
    exists i | 0 <= i < |results| :: IsAccepted(results[i])
  }

  predicate AnyFailed(results: seq<SendResult>) {
    exists i | 0 <= i < |results| :: !IsAccepted(results[i])
  }

  function StatusOf(accepted: bool, failed: bool): CampaignStatus {
    if accepted && !failed then SENT_TO_PROVIDER else if accepted then PARTIAL_FAILED else FAILED
  }

  lemma AnyStep(results: seq<SendResult>, n: nat)
    requires n < |results|
    ensures AnyAccepted(results[..n + 1]) <==> AnyAccepted(results[..n]) || IsAccepted(results[n])
    ensures AnyFailed(results[..n + 1]) <==> AnyFailed(results[..n]) || !IsAccepted(results[n])
  {
    assert results[..n + 1] == results[..n] + [results[n]];
  }

  method CollectUpdates(drafts: seq<Draft>, results: seq<SendResult>) returns (updates: seq<Update>,
                        status: CampaignStatus)
    ensures updates == DirectUpdates(drafts, results, |results|)
    ensures status == SENT_TO_PROVIDER <==> results != [] && !AnyFailed(results)
    ensures status == FAILED <==> !AnyAccepted(results)
  {
    hide WhereOf, IsAccepted;
    updates := [];
    var hasAcceptedRecipient, hasFailedRecipient := false, false;
    for index := 0 to |results|
      invariant updates == DirectUpdates(drafts, results, index)
      invariant hasAcceptedRecipient == AnyAccepted(results[..index])
      invariant hasFailedRecipient == AnyFailed(results[..index])
    {
      var isAccepted := IsAccepted(results[index]);
      hasAcceptedRecipient := hasAcceptedRecipient || isAccepted;
      hasFailedRecipient := hasFailedRecipient || !isAccepted;
      AnyStep(results, index);
      var w := WhereOf(drafts, results, index);
      if w.Some? {
        updates := updates + [Update(w.value, results[index].recipientSeq, isAccepted)];
      }
    }
    assert results[..|results|] == results;
    assert results != [] ==> IsAccepted(results[0]) || AnyFailed(results);
    status := StatusOf(hasAcceptedRecipient, hasFailedRecipient);
  }

  // -------------------------------------------------------------- the updates

  function UpdateRow(row: Row, u: Update): Row {
    if !Matches(u.selector, row) then row
    else if u.accepted then row.(recipientSeq := u.recipientSeq)
    else row.(recipientSeq := u.recipientSeq, status := ROW_FAILED)
  }

  function UpdatedRow(row: Row, updates: seq<Update>): Row {
    if updates == [] then row else UpdateRow(UpdatedRow(row, updates[..|updates| - 1]), updates[|updates| - 1])
  }

  /** `updateMany` for every update, in the given order. */
  method ApplyUpdates(rows: array<Row>, updates: seq<Update>)
    modifies rows
    ensures forall i | 0 <= i < rows.Length :: rows[i] == UpdatedRow(old(rows[i]), updates)
  {
    hide UpdateRow;
    for k := 0 to |updates|
      invariant forall i | 0 <= i < rows.Length :: rows[i] == UpdatedRow(old(rows[i]), updates[..k])
    {
      assert updates[..k + 1][..k] == updates[..k];
      for i := 0 to rows.Length
        invariant forall j | 0 <= j < i :: rows[j] == UpdatedRow(old(rows[j]), updates[..k + 1])
        invariant forall j | i <= j < rows.Length :: rows[j] == UpdatedRow(old(rows[j]), updates[..k])
      {
        rows[i] := UpdateRow(rows[i], updates[k]);
      }
    }
    assert updates[..|updates|] == updates;
  }

  predicate Identified(rows: seq<Row>) {
    forall i, j | 0 <= i < j < |rows| ::
      rows[i].recipientPhone != rows[j].recipientPhone && rows[i].recipientGroupingKey != rows[j].recipientGroupingKey
  }

  lemma AtMostOneRecipient(rows: seq<Row>, w: Where, i: nat, j: nat)
    requires Identified(rows) && i < |rows| && j < |rows|
    ensures Matches(w, rows[i]) && Matches(w, rows[j]) ==> i == j
  {}

  function RowOf(d: Draft): Row {
    Row(d.recipientPhone, d.recipientGroupingKey, None, REQUESTED)
  }

  function RowsOf(drafts: seq<Draft>): (rows: seq<Row>)
    ensures |rows| == |drafts| && forall i | 0 <= i < |rows| :: rows[i] == RowOf(drafts[i])
  {
    seq(|drafts|, i requires 0 <= i < |drafts| => RowOf(drafts[i]))
  }

  lemma DraftedRowsAreIdentified(drafts: seq<Draft>, users: map<string, User>, ids: seq<string>,
                                 always: bool, required: seq<string>, mapping: map<string, string>)
    requires ById(users) && DraftsOf(drafts, users, ids, Kept(users, ids), always, required, mapping)
    ensures Identified(RowsOf(drafts))
  {
    hide DraftsOf, Kept;
    forall i, j | 0 <= i < j < |drafts|
      ensures drafts[i].recipientPhone != drafts[j].recipientPhone
          && drafts[i].recipientGroupingKey != drafts[j].recipientGroupingKey
    {
      DraftsDiffer(drafts, users, ids, always, required, mapping, i, j);
    }
  }

  /** A result that is about the draft at its position, by any of the three marks, finds the
      row of that draft: its key, or without a key its phone however it is written, or without both its position. */
  lemma ResultFindsItsRecipient(drafts: seq<Draft>, users: map<string, User>, ids: seq<string>, always: bool,
                                required: seq<string>, mapping: map<string, string>, results: seq<SendResult>, i: nat)
    requires ById(users) && DraftsOf(drafts, users, ids, Kept(users, ids), always, required, mapping)
    requires i < |drafts| && i < |results|
    requires Truthy(results[i].recipientGroupingKey) ==>
               results[i].recipientGroupingKey.value == drafts[i].recipientGroupingKey
    requires !Truthy(results[i].recipientGroupingKey) && results[i].recipientNo.Some? &&
             NormalizePhoneNumber(results[i].recipientNo.value).Some? ==>
               NormalizePhoneNumber(results[i].recipientNo.value) == NormalizePhoneNumber(drafts[i].recipientPhone)
    ensures var w := WhereOf(drafts, results, i);
            w.Some? && forall j | 0 <= j < |drafts| :: Matches(w.value, RowOf(drafts[j])) <==> j == i
  {
    hide NormalizePhoneNumber, ParametersOf;
    var w := WhereOf(drafts, results, i);
    var user := users[ids[Kept(users, ids)[i]]];
    assert DraftOf(drafts[i], user, always, required, mapping);
    NormalizedPhoneIsStable(user.phone);
    NoDigits();
    assert Matches(w.value, RowOf(drafts[i]));
    DraftedRowsAreIdentified(drafts, users, ids, always, required, mapping);
    forall j | 0 <= j < |drafts| && Matches(w.value, RowOf(drafts[j])) ensures j == i {
      AtMostOneRecipient(RowsOf(drafts), w.value, i, j);
    }
  }

  lemma NoDigits()
    ensures NormalizePhoneNumber("") == None
  {}

  // ------------------------------------------------- order and what rows tell

  predicate Hit(updates: seq<Update>, row: Row) {
    exists k | 0 <= k < |updates| :: Matches(updates[k].selector, row)
  }

  predicate HitByFailure(updates: seq<Update>, row: Row) {
    exists k | 0 <= k < |updates| :: !updates[k].accepted && Matches(updates[k].selector, row)
  }

  predicate HitTwice(updates: seq<Update>, row: Row) {
    exists k, l | 0 <= k < l < |updates| :: Matches(updates[k].selector, row) && Matches(updates[l].selector, row)
  }

  /** A row keeps its identity; it ends up failed when it was failed or a failed result is about it,
      whatever the order. */
  lemma {:induction false} FailureSticks(row: Row, updates: seq<Update>)
    ensures var after := UpdatedRow(row, updates);
            && after == row.(recipientSeq := after.recipientSeq, status := after.status)
            && (after.status == ROW_FAILED <==> row.status == ROW_FAILED || HitByFailure(updates, row))
  {
    if updates != [] {
      var n := |updates| - 1;
      FailureSticks(row, updates[..n]);
      assert HitByFailure(updates[..n], row) ==> HitByFailure(updates, row);
    }
  }

  lemma {:induction false} NotHit(row: Row, updates: seq<Update>)
    requires !Hit(updates, row)
    ensures UpdatedRow(row, updates) == row
  {
    if updates != [] {
      var n := |updates| - 1;
      assert !Hit(updates[..n], row);
      NotHit(row, updates[..n]);
      assert !Matches(updates[n].selector, row);
    }
  }

  /** A row that only one update is about is changed by that update alone. */
  lemma {:induction false} HitOnce(row: Row, updates: seq<Update>, k: nat)
    requires k < |updates| && Matches(updates[k].selector, row) && !HitTwice(updates, row)
    ensures UpdatedRow(row, updates) == UpdateRow(row, updates[k])
  {
    hide Matches;
    var n := |updates| - 1;
    FailureSticks(row, updates[..n]);
    if k == n {
      assert !Hit(updates[..n], row);
      NotHit(row, updates[..n]);
    } else {
      assert !HitTwice(updates[..n], row);
      HitOnce(row, updates[..n], k);
      assert !Matches(updates[n].selector, row);
      SameIdentityMatches(updates[n].selector, row, UpdatedRow(row, updates[..n]));
    }
  }

  lemma SameIdentityMatches(w: Where, a: Row, b: Row)
    requires b == a.(recipientSeq := b.recipientSeq, status := b.status)
    ensures Matches(w, a) <==> Matches(w, b)
  {}

  /** The order in which the updates reach the database does not matter for a row that at most
      one result is about; for the status of a row it never matters. */
  lemma OrderDoesNotMatter(row: Row, updates: seq<Update>, reordered: seq<Update>)
    requires multiset(updates) == multiset(reordered)
    ensures UpdatedRow(row, updates).status == UpdatedRow(row, reordered).status
    ensures !HitTwice(updates, row) && !HitTwice(reordered, row) ==>
        UpdatedRow(row, updates) == UpdatedRow(row, reordered)
  {
    hide Matches, UpdatedRow;
    assert forall u :: u in updates <==> u in multiset(updates);
    assert forall u :: u in reordered <==> u in multiset(reordered);
    FailureSticks(row, updates);
    FailureSticks(row, reordered);
    SameFailures(row, updates, reordered);
    SameFailures(row, reordered, updates);
    if !HitTwice(updates, row) && !HitTwice(reordered, row) {
      if k :| 0 <= k < |updates| && Matches(updates[k].selector, row) {
        assert updates[k] in reordered;
        var l :| 0 <= l < |reordered| && reordered[l] == updates[k];
        HitOnce(row, updates, k);
        HitOnce(row, reordered, l);
      } else {
        assert forall l | 0 <= l < |reordered| :: reordered[l] in updates;
        NotHit(row, updates);
        NotHit(row, reordered);
      }
    }
  }

  lemma SameFailures(row: Row, a: seq<Update>, b: seq<Update>)
    requires forall u | u in a :: u in b
    ensures HitByFailure(a, row) ==> HitByFailure(b, row)
  {
    if k :| 0 <= k < |a| && !a[k].accepted && Matches(a[k].selector, row) {
      assert a[k] in b;
    }
  }

  /** The result is about the row: by its grouping key; without one, by its phone, however written;
      without either, by its position among the recipients. */
  predicate IsAbout(drafts: seq<Draft>, results: seq<SendResult>, k: nat, row: Row)
    requires k < |results|
  {
    var result := results[k];
    if Truthy(result.recipientGroupingKey) then result.recipientGroupingKey.value == row.recipientGroupingKey
    else if result.recipientNo.Some? && Digits(result.recipientNo.value) != "" then
      NormalizePhoneNumber(result.recipientNo.value) == Some(row.recipientPhone)
    else k < |drafts| && row.recipientGroupingKey == drafts[k].recipientGroupingKey && row.recipientGroupingKey != ""
  }

  lemma ResultIsAboutIff(drafts: seq<Draft>, results: seq<SendResult>, k: nat, row: Row)
    requires k < |results|
    ensures IsAbout(drafts, results, k, row)
       <==> WhereOf(drafts, results, k).Some? && Matches(WhereOf(drafts, results, k).value, row)
  {
    hide Digits;
    NoDigits();
  }

  /** The provider did not accept the recipient: there is a code, and it is not 0. */
  predicate Refused(result: SendResult) {
    result.resultCode.Some? && result.resultCode.value != "0"
  }

  lemma {:induction false} FailureIsReported(drafts: seq<Draft>, results: seq<SendResult>, n: nat, row: Row)
    requires n <= |results|
    ensures HitByFailure(DirectUpdates(drafts, results, n), row)
       <==> exists k | 0 <= k < n :: Refused(results[k]) && IsAbout(drafts, results, k, row)
  {
    hide WhereOf, IsAbout, Matches;
    if n > 0 {
      FailureIsReported(drafts, results, n - 1, row);
      ResultIsAboutIff(drafts, results, n - 1, row);
      var w := WhereOf(drafts, results, n - 1);
      var earlier, updates := DirectUpdates(drafts, results, n - 1), DirectUpdates(drafts, results, n);
      assert w.Some? ==> updates == earlier + [Update(w.value, results[n - 1].recipientSeq, !Refused(results[n - 1]))];
      if HitByFailure(earlier, row) {
        var k :| 0 <= k < |earlier| && !earlier[k].accepted && Matches(earlier[k].selector, row);
        assert updates[k] == earlier[k];
      }
      if w.Some? && Refused(results[n - 1]) && Matches(w.value, row) { assert !updates[|earlier|].accepted; }
    }
  }

  /** After a direct send, a recipient is failed exactly when it was or some result with a code other
      than 0 is about it, and the campaign is FAILED exactly when every result has such a
      code and SENT_TO_PROVIDER exactly when there are results and none of them has. */
  lemma RefusedRecipientsFail(drafts: seq<Draft>, results: seq<SendResult>, row: Row)
    ensures UpdatedRow(row, DirectUpdates(drafts, results, |results|)).status == ROW_FAILED
       <==> row.status == ROW_FAILED
            || exists k | 0 <= k < |results| :: Refused(results[k]) && IsAbout(drafts, results, k, row)
    ensures var status := StatusOf(AnyAccepted(results), AnyFailed(results));
            && (status == FAILED <==> forall k | 0 <= k < |results| :: Refused(results[k]))
            && (status == SENT_TO_PROVIDER
               <==> results != [] && forall k | 0 <= k < |results| :: !Refused(results[k]))
  {
    hide IsAbout, WhereOf, UpdatedRow;
    FailureIsReported(drafts, results, |results|, row);
    FailureSticks(row, DirectUpdates(drafts, results, |results|));
    assert forall k | 0 <= k < |results| :: IsAccepted(results[k]) <==> !Refused(results[k]);
    assert results != [] ==> IsAccepted(results[0]) || Refused(results[0]);
  }

  /** A recipient gets the sequence number of the last result that is about it; one that no result
      is about is left as it is. */
  lemma {:induction false} LastResultIsWritten(drafts: seq<Draft>, results: seq<SendResult>, n: nat, row: Row)
    requires n <= |results|
    ensures var after := UpdatedRow(row, DirectUpdates(drafts, results, n));
            && ((forall k | 0 <= k < n :: !IsAbout(drafts, results, k, row)) ==> after == row)
            && (forall k | 0 <= k < n && LastAbout(drafts, results, k, n, row) ::
                  after.recipientSeq == results[k].recipientSeq)
  {
    hide WhereOf, IsAbout, Matches;
    if n > 0 {
      var earlier := DirectUpdates(drafts, results, n - 1);
      var w, result := WhereOf(drafts, results, n - 1), results[n - 1];
      LastResultIsWritten(drafts, results, n - 1, row);
      ResultIsAboutIff(drafts, results, n - 1, row);
      FailureSticks(row, earlier);
      if w.Some? {
        var update := Update(w.value, result.recipientSeq, IsAccepted(result));
        SameIdentityMatches(w.value, row, UpdatedRow(row, earlier));
        assert (earlier + [update])[..|earlier|] == earlier;
        assert UpdatedRow(row, earlier + [update]) == UpdateRow(UpdatedRow(row, earlier), update);
      } else {
        assert DirectUpdates(drafts, results, n) == earlier;
      }
    }
  }

  /** Of the first `n` results, this is the last one that is about the row. */
  predicate LastAbout(drafts: seq<Draft>, results: seq<SendResult>, k: nat, n: nat, row: Row)
    requires k < n <= |results|
  {
    IsAbout(drafts, results, k, row) && forall j | k < j < n :: !IsAbout(drafts, results, j, row)
  }

  /** Every result finds a recipient. */
  predicate AllPlaced(drafts: seq<Draft>, results: seq<SendResult>, rows: seq<Row>) {
    forall k | 0 <= k < |results| ::
      WhereOf(drafts, results, k).Some?
        && exists i | 0 <= i < |rows| :: Matches(WhereOf(drafts, results, k).value, rows[i])
  }

  predicate FindsRow(u: Update, rows: seq<Row>) {
    exists i | 0 <= i < |rows| :: Matches(u.selector, rows[i])
  }

  predicate AllCovered(rows: seq<Row>, updates: seq<Update>) {
    forall i | 0 <= i < |rows| :: Hit(updates, rows[i])
  }

  predicate NoneTwice(rows: seq<Row>, updates: seq<Update>) {
    forall i | 0 <= i < |rows| :: !HitTwice(updates, rows[i])
  }

  /** When every result has a place, the updates are the results one by one. */
  lemma {:induction false} PlacedUpdates(drafts: seq<Draft>, results: seq<SendResult>, n: nat)
    requires n <= |results| && forall k | 0 <= k < n :: WhereOf(drafts, results, k).Some?
    ensures var updates := DirectUpdates(drafts, results, n);
            && |updates| == n
            && forall k | 0 <= k < n ::
                 updates[k] == Update(WhereOf(drafts, results, k).value, results[k].recipientSeq,
                   IsAccepted(results[k]))
  {
    hide WhereOf;
    if n > 0 { PlacedUpdates(drafts, results, n - 1); }
  }

  predicate AllAccepted(updates: seq<Update>) {
    forall k | 0 <= k < |updates| :: updates[k].accepted
  }

  predicate NoneAccepted(updates: seq<Update>) {
    forall k | 0 <= k < |updates| :: !updates[k].accepted
  }

  lemma UpdatesShowResults(drafts: seq<Draft>, results: seq<SendResult>, rows: seq<Row>)
    requires AllPlaced(drafts, results, rows)
    ensures var updates := DirectUpdates(drafts, results, |results|);
            && |updates| == |results|
            && (forall k | 0 <= k < |updates| :: FindsRow(updates[k], rows))
            && (AnyFailed(results) <==> !AllAccepted(updates))
            && (AnyAccepted(results) <==> !NoneAccepted(updates))
  {
    hide WhereOf, Matches, IsAccepted, DirectUpdates;
    var updates := DirectUpdates(drafts, results, |results|);
    PlacedUpdates(drafts, results, |results|);
    forall k | 0 <= k < |updates| ensures FindsRow(updates[k], rows) && updates[k].accepted == IsAccepted(results[k]) {
      var i :| 0 <= i < |rows| && Matches(WhereOf(drafts, results, k).value, rows[i]);
    }
  }

  lemma NoRowFailedIff(rows: seq<Row>, updates: seq<Update>)
    requires forall k | 0 <= k < |updates| :: FindsRow(updates[k], rows)
    ensures AllAccepted(updates) <==> forall i | 0 <= i < |rows| :: !HitByFailure(updates, rows[i])
  {
    hide Matches;
    forall k | 0 <= k < |updates| && !updates[k].accepted
      ensures exists i | 0 <= i < |rows| :: HitByFailure(updates, rows[i])
    {
      assert FindsRow(updates[k], rows);
      var i :| 0 <= i < |rows| && Matches(updates[k].selector, rows[i]);
      assert HitByFailure(updates, rows[i]);
    }
  }

  lemma EveryRowFailedIff(rows: seq<Row>, updates: seq<Update>)
    requires forall k | 0 <= k < |updates| :: FindsRow(updates[k], rows)
    requires AllCovered(rows, updates) && NoneTwice(rows, updates)
    ensures NoneAccepted(updates) <==> forall i | 0 <= i < |rows| :: HitByFailure(updates, rows[i])
  {
    hide Matches;
    forall k | 0 <= k < |updates| && updates[k].accepted
      ensures exists i | 0 <= i < |rows| :: !HitByFailure(updates, rows[i])
    {
      assert FindsRow(updates[k], rows);
      var i :| 0 <= i < |rows| && Matches(updates[k].selector, rows[i]);
      AcceptedOnlyOnce(updates, rows[i], k);
    }
    if NoneAccepted(updates) {
      forall i | 0 <= i < |rows| ensures HitByFailure(updates, rows[i]) {
        assert Hit(updates, rows[i]);
      }
    }
  }

  lemma AcceptedOnlyOnce(updates: seq<Update>, row: Row, k: nat)
    requires k < |updates| && updates[k].accepted && Matches(updates[k].selector, row) && !HitTwice(updates, row)
    ensures !HitByFailure(updates, row)
  {
    hide Matches;
    forall l | 0 <= l < |updates| && Matches(updates[l].selector, row) ensures l == k {}
  }

  // ------------------------------------------- what the campaign status tells

  predicate Fresh(rows: seq<Row>) {
    forall i | 0 <= i < |rows| :: rows[i].status == REQUESTED
  }

  predicate NoRowFailed(rows: seq<Row>, updates: seq<Update>) {
    forall i | 0 <= i < |rows| :: UpdatedRow(rows[i], updates).status == REQUESTED
  }

  predicate EveryRowFailed(rows: seq<Row>, updates: seq<Update>) {
    forall i | 0 <= i < |rows| :: UpdatedRow(rows[i], updates).status == ROW_FAILED
  }

  /** Every update comes from a result of its kind. */
  predicate Reported(updates: seq<Update>, results: seq<SendResult>) {
    forall k | 0 <= k < |updates| :: if updates[k].accepted then AnyAccepted(results) else AnyFailed(results)
  }

  lemma {:induction false} DirectUpdatesAreReported(drafts: seq<Draft>, results: seq<SendResult>, n: nat)
    requires n <= |results|
    ensures Reported(DirectUpdates(drafts, results, n), results)
  {
    hide WhereOf, IsAccepted;
    if n > 0 { DirectUpdatesAreReported(drafts, results, n - 1); }
  }

  lemma {:induction false} WorkerUpdatesAreReported(results: seq<SendResult>, n: nat)
    requires n <= |results|
    ensures Reported(WorkerUpdates(results, n), results)
  {
    hide IsAccepted;
    if n > 0 { WorkerUpdatesAreReported(results, n - 1); }
  }

  /** Some failed result finds a recipient. */
  predicate FailureFinds(rows: seq<Row>, updates: seq<Update>) {
    exists i | 0 <= i < |rows| :: HitByFailure(updates, rows[i])
  }

  /** Some recipient has no failed result. */
  predicate RowSpared(rows: seq<Row>, updates: seq<Update>) {
    exists i | 0 <= i < |rows| :: !HitByFailure(updates, rows[i])
  }

  /** SENT_TO_PROVIDER tells that no row failed exactly when there is a result and, if any
      result failed, some failed result finds a recipient. */
  predicate SentIsTold(rows: seq<Row>, updates: seq<Update>, results: seq<SendResult>) {
    results != [] && (AnyFailed(results) ==> FailureFinds(rows, updates))
  }

  /** FAILED tells that every row failed exactly when some recipient has no failed result, if any
      result is accepted, and every recipient has a result, if none is. */
  predicate FailedIsTold(rows: seq<Row>, updates: seq<Update>, results: seq<SendResult>) {
    if AnyAccepted(results) then RowSpared(rows, updates) else AllCovered(rows, updates)
  }

  lemma RowsFailIff(rows: seq<Row>, updates: seq<Update>)
    requires Fresh(rows)
    ensures NoRowFailed(rows, updates) <==> !FailureFinds(rows, updates)
    ensures EveryRowFailed(rows, updates) <==> !RowSpared(rows, updates)
  {
    hide UpdatedRow, HitByFailure;
    forall i | 0 <= i < |rows|
      ensures UpdatedRow(rows[i], updates).status == ROW_FAILED <==> HitByFailure(updates, rows[i])
    {
      FailureSticks(rows[i], updates);
    }
  }

  /** Without an accepted update, being hit is being hit by a failure; without a failed one nothing is. */
  lemma HitsByKind(rows: seq<Row>, updates: seq<Update>, results: seq<SendResult>)
    requires Reported(updates, results)
    ensures !AnyFailed(results) ==> !FailureFinds(rows, updates)
    ensures !AnyAccepted(results) ==> (AllCovered(rows, updates) <==> !RowSpared(rows, updates))
  {
    hide Matches, AnyAccepted, AnyFailed;
    if !AnyAccepted(results) {
      forall i | 0 <= i < |rows| ensures Hit(updates, rows[i]) <==> HitByFailure(updates, rows[i]) {}
    }
  }

  lemma SomeResult(results: seq<SendResult>)
    ensures results != [] <==> AnyAccepted(results) || AnyFailed(results)
  {
    assert results != [] ==> IsAccepted(results[0]) || !IsAccepted(results[0]);
  }

  /** Exactly when the status of a campaign and its rows agree, for any results and with no
      assumption on whether they are about the recipients at all. */
  lemma StatusAgreesIff(rows: seq<Row>, updates: seq<Update>, results: seq<SendResult>)
    requires Fresh(rows) && Reported(updates, results)
    ensures var status := StatusOf(AnyAccepted(results), AnyFailed(results));
            && ((status == SENT_TO_PROVIDER <==> NoRowFailed(rows, updates)) <==> SentIsTold(rows, updates, results))
            && ((status == FAILED <==> EveryRowFailed(rows, updates)) <==> FailedIsTold(rows, updates, results))
  {
    hide AnyAccepted, AnyFailed, NoRowFailed, EveryRowFailed, FailureFinds, RowSpared, AllCovered, Reported, Fresh;
    RowsFailIff(rows, updates);
    HitsByKind(rows, updates, results);
    SomeResult(results);
  }

  /** The direct send: when every result finds a recipient and every recipient has a result,
      SENT_TO_PROVIDER tells that no row failed and, if no recipient has two results, FAILED
      tells that every row failed. */
  lemma StatusTellsTheRows(drafts: seq<Draft>, results: seq<SendResult>, rows: seq<Row>)
    requires rows != [] && Fresh(rows) && AllPlaced(drafts, results, rows)
    requires AllCovered(rows, DirectUpdates(drafts, results, |results|))
    ensures var updates := DirectUpdates(drafts, results, |results|);
            var status := StatusOf(AnyAccepted(results), AnyFailed(results));
            && (status == SENT_TO_PROVIDER <==> NoRowFailed(rows, updates))
            && (NoneTwice(rows, updates) ==> (status == FAILED <==> EveryRowFailed(rows, updates)))
  {
    hide AllPlaced, FindsRow, NoRowFailed, EveryRowFailed, NoneTwice, DirectUpdates, AnyAccepted, AnyFailed;
    hide HitByFailure, AllCovered;
    var updates := DirectUpdates(drafts, results, |results|);
    UpdatesShowResults(drafts, results, rows);
    DirectUpdatesAreReported(drafts, results, |results|);
    StatusAgreesIff(rows, updates, results);
    SomethingAccepted(rows, updates);
    SomeResult(results);
    NoRowFailedIff(rows, updates);
    if NoneTwice(rows, updates) { EveryRowFailedIff(rows, updates); }
  }

  /** There is an update, since there is a row and every row is hit. */
  lemma SomethingAccepted(rows: seq<Row>, updates: seq<Update>)
    requires rows != [] && AllCovered(rows, updates)
    ensures !(AllAccepted(updates) && NoneAccepted(updates))
  {
    hide Matches;
    assert Hit(updates, rows[0]);
  }

  /** Each of the three conditions is needed. Without any result the campaign is FAILED although
      no row is; with an accepted and a failed result about one recipient it is PARTIAL_FAILED
      although every row is failed; and with a failed result that finds nobody it is
      PARTIAL_FAILED although no row is failed. */
  lemma StatusWithoutCoverage(drafts: seq<Draft>, row: Row)
    requires row.status == REQUESTED && row.recipientGroupingKey != ""
    ensures StatusOf(AnyAccepted([]), AnyFailed([])) == FAILED
            && UpdatedRow(row, DirectUpdates(drafts, [], 0)).status == REQUESTED
    ensures var key := Some(row.recipientGroupingKey);
            var results := [SendResult(key, None, None, None), SendResult(key, None, None, Some("1"))];
            && StatusOf(AnyAccepted(results), AnyFailed(results)) == PARTIAL_FAILED
            && UpdatedRow(row, DirectUpdates(drafts, results, 2)).status == ROW_FAILED
    ensures |drafts| <= 1 ==>
              var key := Some(row.recipientGroupingKey);
              var results := [SendResult(key, None, None, None), SendResult(None, None, None, Some("1"))];
              var updates := DirectUpdates(drafts, results, 2);
              && StatusOf(AnyAccepted(results), AnyFailed(results)) == PARTIAL_FAILED
              && Hit(updates, row) && !HitTwice(updates, row)
              && UpdatedRow(row, updates).status == REQUESTED
  {
    TwoResultsForOne(drafts, row);
    if |drafts| <= 1 { ResultForNobody(drafts, row); }
  }

  lemma TwoResultsForOne(drafts: seq<Draft>, row: Row)
    requires row.status == REQUESTED && row.recipientGroupingKey != ""
    ensures var key := Some(row.recipientGroupingKey);
            var results := [SendResult(key, None, None, None), SendResult(key, None, None, Some("1"))];
            && AnyAccepted(results) && AnyFailed(results)
            && UpdatedRow(row, DirectUpdates(drafts, results, 2)).status == ROW_FAILED
  {
    var key := Some(row.recipientGroupingKey);
    var results := [SendResult(key, None, None, None), SendResult(key, None, None, Some("1"))];
    assert IsAccepted(results[0]) && !IsAccepted(results[1]);
    PlacedUpdates(drafts, results, 2);
    var updates := DirectUpdates(drafts, results, 2);
    assert !updates[1].accepted && Matches(updates[1].selector, row);
    FailureSticks(row, updates);
  }

  lemma ResultForNobody(drafts: seq<Draft>, row: Row)
    requires row.status == REQUESTED && row.recipientGroupingKey != "" && |drafts| <= 1
    ensures var key := Some(row.recipientGroupingKey);
            var results := [SendResult(key, None, None, None), SendResult(None, None, None, Some("1"))];
            var updates := DirectUpdates(drafts, results, 2);
            && AnyAccepted(results) && AnyFailed(results)
            && Hit(updates, row) && !HitTwice(updates, row)
            && UpdatedRow(row, updates).status == REQUESTED
  {
    hide NormalizePhoneNumber, UpdatedRow;
    var key := Some(row.recipientGroupingKey);
    var results := [SendResult(key, None, None, None), SendResult(None, None, None, Some("1"))];
    assert IsAccepted(results[0]) && !IsAccepted(results[1]);
    NoDigits();
    assert WhereOf(drafts, results, 1) == None;
    PlacedUpdates(drafts, results, 1);
    var updates := DirectUpdates(drafts, results, 2);
    assert updates == DirectUpdates(drafts, results, 1);
    assert Matches(updates[0].selector, row);
    FailureSticks(row, updates);
  }

  // -------------------------------------------------------------- the worker

  lemma {:induction false} WorkerUpdatesAreFewer(drafts: seq<Draft>, results: seq<SendResult>, n: nat)
    requires n <= |results|
    ensures |WorkerUpdates(results, n)| <= |DirectUpdates(drafts, results, n)|
    ensures (forall k | 0 <= k < n && WhereOf(drafts, results, k).Some? :: Truthy(results[k].recipientGroupingKey)) ==>
              WorkerUpdates(results, n) == DirectUpdates(drafts, results, n)
    ensures (exists k | 0 <= k < n && WhereOf(drafts, results, k).Some? :: !Truthy(results[k].recipientGroupingKey)) ==>
              |WorkerUpdates(results, n)| < |DirectUpdates(drafts, results, n)|
  {
    hide NormalizePhoneNumber;
    if n > 0 { WorkerUpdatesAreFewer(drafts, results, n - 1); }
  }

  /** The queued worker updates the rows as the direct send does exactly when every result that
      the direct send can place carries a grouping key; otherwise it makes fewer updates. */
  lemma WorkerAgreesIff(drafts: seq<Draft>, results: seq<SendResult>)
    ensures WorkerUpdates(results, |results|) == DirectUpdates(drafts, results, |results|)
       <==> forall k | 0 <= k < |results|
         && WhereOf(drafts, results, k).Some? :: Truthy(results[k].recipientGroupingKey)
  {
    hide WhereOf;
    WorkerUpdatesAreFewer(drafts, results, |results|);
  }
}
