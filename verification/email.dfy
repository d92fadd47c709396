/** Email dispatch with retries and a delivery log (lib/email/send.ts). The SMTP
    client and the wall clock are a supplied trace: `trace[k]` is what the attempt
    with retry count k reports and when it runs. Waiting is not performed; the
    delays waited are recorded. */
module Email {
  import opened Base

  /** `MAX_RETRIES` */
  const MaxRetries: nat := 3

  /** The error recorded on a mail's last row when every attempt failed. */
  const RetriesExhausted: string := "Max retry attempts exceeded"

  /** `RETRY_DELAYS`, in milliseconds. */
  const RetryDelays: seq<int> := [1000, 5000, 15000]

  /** The `EmailData` union; the constructor is its `type` tag. */
  datatype EmailData =
    | Verification(username: string, verificationUrl: string)
    | Welcome(username: string)
    | PasswordReset(username: string, resetUrl: string)
    | OtpMail(username: string, code: string)

  /** `EmailType` */
  datatype EmailType = VerificationType | WelcomeType | PasswordResetType | OtpType

  datatype EmailStatus = Pending | Sent | Failed

  /** A row of the email log. `metadata` is `None` when the caller passed none
      (the code stores `{}`). */
  datatype EmailLog = EmailLog(
    id: nat,
    to: string,
    subject: string,
    userId: Option<nat>,
    metadata: Option<EmailData>,
    status: EmailStatus,
    attempts: nat,
    sentAt: Option<Time>,
    error: Option<string>)

  /** What one call of the SMTP client does. */
  datatype SendOutcome = Delivered | NotDelivered | Threw

  /** One call of the SMTP client: its outcome and the time it was made. */
  datatype Try = Try(outcome: SendOutcome, at: Time)

  /** The trace says what every attempt a run from `retryCount` can make does. */
  predicate Covers(trace: seq<Try>, retryCount: nat) {
    retryCount < |trace| && MaxRetries < |trace|
  }

  /** The options `sendEmailWithRetry` passes unchanged from attempt to attempt. */
  datatype Mail = Mail(to: string, subject: string, userId: Option<nat>, metadata: Option<EmailData>)

  /** The rows the call appended to the log (one per attempt, hence one per call of
      the SMTP client), its boolean result and the delays it waited. */
  datatype EmailRun = EmailRun(rows: seq<EmailLog>, delivered: bool, delays: seq<int>)

  /** No row of `logs` has this id. */
  predicate FreshIn(id: nat, logs: seq<EmailLog>) {
    forall j :: 0 <= j < |logs| ==> logs[j].id != id
  }

  /** The id the store gives the next email-log row: above every id in use, so the
      rows of one run, numbered consecutively from it, are all new. */
  function NewLogId(logs: seq<EmailLog>): (id: nat)
    ensures forall j :: 0 <= j < |logs| ==> logs[j].id < id
  {
    NextId(Column(logs, (l: EmailLog) => l.id))
  }

  /** The status the row of the last attempt ends with, by what the client did. */
  function FinalStatus(o: SendOutcome): EmailStatus {
    match o
    case Delivered => Sent
    case NotDelivered => Failed
    case Threw => Pending
  }

  /** The rows of one run carry the mail's fields, consecutive ids from `firstId`
      and consecutive retry counts from `retryCount`. */
  predicate RowsOf(rows: seq<EmailLog>, firstId: nat, m: Mail, retryCount: nat) {
    forall k :: 0 <= k < |rows| ==>
      && rows[k].id == firstId + k
      && rows[k].to == m.to && rows[k].subject == m.subject && rows[k].userId == m.userId
      && rows[k].metadata == m.metadata && rows[k].attempts == retryCount + k
  }

  /** The client reported a plain failure on attempts `from` up to, not including, `to`. */
  predicate FailedBetween(trace: seq<Try>, from: nat, to: nat)
    requires to <= |trace|
  {
    forall k :: from <= k < to ==> trace[k].outcome == NotDelivered
  }

  /** Every row but the last is still pending. */
  predicate PendingBeforeLast(rows: seq<EmailLog>) {
    forall k :: 0 <= k < |rows| - 1 ==> rows[k].status == Pending
  }

  /** How the last row of a run ends, given what the client did on its attempt and
      when: sent and stamped, failed with the retry message, or (after a throw) left
      pending. */
  predicate Finalised(row: EmailLog, o: SendOutcome, at: Time) {
    && row.status == FinalStatus(o)
    && row.sentAt == (if o == Delivered then Some(at) else None)
    && row.error == (if o == NotDelivered then Some(RetriesExhausted) else None)
  }

  /** The attempts of one `sendEmailWithRetry` run from `retryCount` on, the first
      row getting id `firstId`. Every attempt writes one pending row with `attempts`
      equal to its retry count; the client is retried only after it reported failure
      and only while the retry count is below `MaxRetries`. A throw from the client
      ends the run with `false`. */
  function Attempts(firstId: nat, m: Mail, retryCount: nat, trace: seq<Try>): (r: EmailRun)
    requires Covers(trace, retryCount)
    ensures 1 <= |r.rows| <= (if retryCount <= MaxRetries then MaxRetries + 1 - retryCount else 1)
    ensures retryCount + |r.rows| <= |trace|
    ensures r.delivered <==> trace[retryCount + |r.rows| - 1].outcome == Delivered
    ensures |r.delays| == |r.rows| - 1
    ensures Finalised(r.rows[|r.rows| - 1], trace[retryCount + |r.rows| - 1].outcome, trace[retryCount + |r.rows| - 1].at)
    decreases MaxRetries - retryCount
  {
    var row := EmailLog(firstId, m.to, m.subject, m.userId, m.metadata, Pending, retryCount, None, None);
    match trace[retryCount].outcome
    case Threw => EmailRun([row], false, [])
    case Delivered => EmailRun([row.(status := Sent, sentAt := Some(trace[retryCount].at))], true, [])
    case NotDelivered =>
      if retryCount < MaxRetries then
        var d := RetryDelays[retryCount];
        var rest := Attempts(firstId + 1, m, retryCount + 1, trace);
        var rows := [row] + rest.rows;
        assert rows[|rows| - 1] == rest.rows[|rest.rows| - 1];
        EmailRun(rows, rest.delivered, [d] + rest.delays)
      else
        EmailRun([row.(status := Failed, error := Some(RetriesExhausted))], false, [])
  }

  /** `sendEmailWithRetry({ to, subject, userId, metadata, retryCount })` started at
      under the client behaviour `trace`; the log afterwards is `logs + r.rows`. Each row is new, one per
      call of the SMTP client, and at most four calls are made from retry 0. */
  function SendEmailWithRetry(logs: seq<EmailLog>, m: Mail, retryCount: nat, trace: seq<Try>): (r: EmailRun)
    requires Covers(trace, retryCount)
    ensures 1 <= |r.rows| <= (if retryCount <= MaxRetries then MaxRetries + 1 - retryCount else 1)
    ensures RowsOf(r.rows, NewLogId(logs), m, retryCount) && PendingBeforeLast(r.rows)
    ensures forall k :: 0 <= k < |r.rows| ==> FreshIn(r.rows[k].id, logs)
    ensures r.delivered <==> trace[retryCount + |r.rows| - 1].outcome == Delivered
    ensures Finalised(r.rows[|r.rows| - 1], trace[retryCount + |r.rows| - 1].outcome,
                      trace[retryCount + |r.rows| - 1].at)
  {
    var r := Attempts(NewLogId(logs), m, retryCount, trace);
    AttemptRows(NewLogId(logs), m, retryCount, trace);
    r
  }

  /** The rows of a run carry the mail, consecutive ids and retry counts, and all
      but the last stay pending. */
  lemma {:induction false} AttemptRows(firstId: nat, m: Mail, retryCount: nat, trace: seq<Try>)
    requires Covers(trace, retryCount)
    ensures var r := Attempts(firstId, m, retryCount, trace);
            RowsOf(r.rows, firstId, m, retryCount) && PendingBeforeLast(r.rows)
    decreases MaxRetries - retryCount
  {
    if trace[retryCount].outcome == NotDelivered && retryCount < MaxRetries {
      AttemptRows(firstId + 1, m, retryCount + 1, trace);
      var r := Attempts(firstId, m, retryCount, trace);
      var rest := Attempts(firstId + 1, m, retryCount + 1, trace);
      var row := EmailLog(firstId, m.to, m.subject, m.userId, m.metadata, Pending, retryCount, None, None);
      assert r.rows == [row] + rest.rows;
      RowsCons(row, rest.rows, firstId, m, retryCount);
    } else {
      var r := Attempts(firstId, m, retryCount, trace);
      assert |r.rows| == 1 && r.rows[0].id == firstId && r.rows[0].attempts == retryCount;
    }
  }

  /** A run stops at the first attempt that does not fail plainly, or after the last
      retry: every attempt before the last one failed, and a last plain failure is
      the final retry. */
  lemma {:induction false} AttemptsStop(firstId: nat, m: Mail, retryCount: nat, trace: seq<Try>)
    requires Covers(trace, retryCount)
    ensures var r := Attempts(firstId, m, retryCount, trace);
            var last := retryCount + |r.rows| - 1;
            && FailedBetween(trace, retryCount, last)
            && (trace[last].outcome == NotDelivered ==> last >= MaxRetries)
    decreases MaxRetries - retryCount
  {
    if trace[retryCount].outcome == NotDelivered && retryCount < MaxRetries {
      AttemptsStop(firstId + 1, m, retryCount + 1, trace);
      var r := Attempts(firstId, m, retryCount, trace);
      var rest := Attempts(firstId + 1, m, retryCount + 1, trace);
      var last := retryCount + |r.rows| - 1;
      assert |r.rows| == 1 + |rest.rows|;
      assert FailedBetween(trace, retryCount + 1, last);
    } else {
      assert |Attempts(firstId, m, retryCount, trace).rows| == 1;
    }
  }

  /** A pending first row of the mail in front of a run's rows keeps the run's shape. */
  lemma RowsCons(row: EmailLog, rest: seq<EmailLog>, firstId: nat, m: Mail, retryCount: nat)
    requires row == EmailLog(firstId, m.to, m.subject, m.userId, m.metadata, Pending, retryCount, None, None)
    requires |rest| >= 1
    requires RowsOf(rest, firstId + 1, m, retryCount + 1) && PendingBeforeLast(rest)
    ensures RowsOf([row] + rest, firstId, m, retryCount) && PendingBeforeLast([row] + rest)
  {
    var rows := [row] + rest;
    assert forall k :: 1 <= k < |rows| ==> rows[k] == rest[k - 1];
  }

  /** The waits of a run are the next entries of `RETRY_DELAYS` from `retryCount`
      on, never reading past its end. */
  lemma {:induction false} RetryWaits(firstId: nat, m: Mail, retryCount: nat, trace: seq<Try>)
    requires Covers(trace, retryCount)
    ensures var r := Attempts(firstId, m, retryCount, trace);
            |r.delays| > 0 ==> retryCount + |r.delays| <= MaxRetries
                               && r.delays == RetryDelays[retryCount .. retryCount + |r.delays|]
    decreases MaxRetries - retryCount
  {
    if trace[retryCount].outcome == NotDelivered && retryCount < MaxRetries {
      RetryWaits(firstId + 1, m, retryCount + 1, trace);
      var r := Attempts(firstId, m, retryCount, trace);
      var rest := Attempts(firstId + 1, m, retryCount + 1, trace);
      assert r.delays == [RetryDelays[retryCount]] + rest.delays;
      DelaysCons(r.delays, rest.delays, retryCount);
    }
  }

  /** The delay before retry `retryCount + 1` in front of the later delays keeps
      the schedule. */
  lemma DelaysCons(delays: seq<int>, rest: seq<int>, retryCount: nat)
    requires retryCount < MaxRetries && delays == [RetryDelays[retryCount]] + rest
    requires |rest| > 0 ==> retryCount + 1 + |rest| <= MaxRetries
                            && rest == RetryDelays[retryCount + 1 .. retryCount + 1 + |rest|]
    ensures retryCount + |delays| <= MaxRetries
    ensures delays == RetryDelays[retryCount .. retryCount + |delays|]
  {
  }

  /** A top-level call delivers exactly when one of the first four attempts is
      delivered after only plain failures. */
  lemma DeliveredIffSomeAttemptSucceeds(logs: seq<EmailLog>, m: Mail, trace: seq<Try>)
    requires Covers(trace, 0)
    ensures SendEmailWithRetry(logs, m, 0, trace).delivered <==>
              exists k :: 0 <= k <= MaxRetries && trace[k].outcome == Delivered && FailedBetween(trace, 0, k)
  {
    var r := SendEmailWithRetry(logs, m, 0, trace);
    var last := |r.rows| - 1;
    AttemptsStop(NewLogId(logs), m, 0, trace);
    if exists k :: 0 <= k <= MaxRetries && trace[k].outcome == Delivered && FailedBetween(trace, 0, k) {
      var k :| 0 <= k <= MaxRetries && trace[k].outcome == Delivered && FailedBetween(trace, 0, k);
      assert last == k;
    }
  }

  /** Fail, fail, deliver: three attempts, two delays (1 s then 5 s), the third row
      sent and stamped with the third attempt's time, the first two left pending. */
  lemma FailFailDeliver(logs: seq<EmailLog>, m: Mail, trace: seq<Try>)
    requires Covers(trace, 0)
    requires trace[0].outcome == NotDelivered && trace[1].outcome == NotDelivered
    requires trace[2].outcome == Delivered
    ensures var r := SendEmailWithRetry(logs, m, 0, trace);
            && r.delivered && |r.rows| == 3 && r.delays == [1000, 5000]
            && r.rows[0].status == Pending && r.rows[1].status == Pending
            && r.rows[2].status == Sent && r.rows[2].attempts == 2
            && r.rows[2].sentAt == Some(trace[2].at)
  {
    var r := SendEmailWithRetry(logs, m, 0, trace);
    AttemptRows(NewLogId(logs), m, 0, trace);
    RetryWaits(NewLogId(logs), m, 0, trace);
    AttemptsStop(NewLogId(logs), m, 0, trace);
  }

  /** A client that never delivers is called exactly four times, waits 1 s, 5 s and
      15 s, and leaves only the fourth row failed. */
  lemma NeverDelivered(logs: seq<EmailLog>, m: Mail, trace: seq<Try>)
    requires Covers(trace, 0)
    requires forall k :: 0 <= k < |trace| ==> trace[k].outcome == NotDelivered
    ensures var r := SendEmailWithRetry(logs, m, 0, trace);
            && !r.delivered && |r.rows| == MaxRetries + 1 && r.delays == RetryDelays
            && r.rows[0].status == Pending && r.rows[1].status == Pending && r.rows[2].status == Pending
            && r.rows[3].status == Failed && r.rows[3].error == Some("Max retry attempts exceeded")
  {
    var r := SendEmailWithRetry(logs, m, 0, trace);
    AttemptRows(NewLogId(logs), m, 0, trace);
    RetryWaits(NewLogId(logs), m, 0, trace);
    AttemptsStop(NewLogId(logs), m, 0, trace);
  }

  /** A client that throws on the first call is not retried, and its row stays pending. */
  lemma ThrowIsNotRetried(logs: seq<EmailLog>, m: Mail, trace: seq<Try>)
    requires Covers(trace, 0) && trace[0].outcome == Threw
    ensures var r := SendEmailWithRetry(logs, m, 0, trace);
            !r.delivered && |r.rows| == 1 && r.rows[0].status == Pending
  {
  }

  /** The subject of the template chosen by `data.type`. */
  function Subject(data: EmailData): (s: string)
    ensures s == "Verify your email address" <==> data.Verification?
    ensures s == "Welcome to AfriConnect Exchange" <==> data.Welcome?
    ensures s == "Reset your password" <==> data.PasswordReset?
    ensures s == "Your verification code" <==> data.OtpMail?
  {
    match data
    case Verification(_, _) => "Verify your email address"
    case Welcome(_) => "Welcome to AfriConnect Exchange"
    case PasswordReset(_, _) => "Reset your password"
    case OtpMail(_, _) => "Your verification code"
  }

  /** The subject names the kind of mail: no two kinds share one. */
  lemma SubjectIdentifiesKind(a: EmailData, b: EmailData)
    requires Subject(a) == Subject(b)
    ensures a.Verification? == b.Verification? && a.Welcome? == b.Welcome?
    ensures a.PasswordReset? == b.PasswordReset? && a.OtpMail? == b.OtpMail?
  {
  }

  /** `sendTemplatedEmail(type, to, data, userId?)`: the template, hence the subject,
      is looked up by `data.type`; the `type` argument is never read. The data is
      stored as the log rows' metadata. */
  function SendTemplatedEmail(logs: seq<EmailLog>, emailType: EmailType, to: string, data: EmailData,
                              userId: Option<nat>, trace: seq<Try>): (r: EmailRun)
    requires Covers(trace, 0)
    ensures |r.rows| >= 1 && r.rows[0].attempts == 0
    ensures forall k :: 0 <= k < |r.rows| ==>
              && r.rows[k].to == to && r.rows[k].subject == Subject(data) && r.rows[k].metadata == Some(data)
              && r.rows[k].userId == userId && FreshIn(r.rows[k].id, logs)
    ensures r.delivered <==> r.rows[|r.rows| - 1].status == Sent
  {
    SendEmailWithRetry(logs, Mail(to, Subject(data), userId, Some(data)), 0, trace)
  }

  /** The `type` argument has no effect on what is sent or logged. */
  lemma TemplateTypeIgnored(logs: seq<EmailLog>, t1: EmailType, t2: EmailType, to: string, data: EmailData,
                            userId: Option<nat>, trace: seq<Try>)
    requires Covers(trace, 0)
    ensures SendTemplatedEmail(logs, t1, to, data, userId, trace)
            == SendTemplatedEmail(logs, t2, to, data, userId, trace)
  {
  }

  /** `findUnique({ where: { id } })` on the email log. */
  function FindLog(logs: seq<EmailLog>, id: nat): (r: Option<nat>)
    ensures r.Some? ==> r.value < |logs| && logs[r.value].id == id
                        && forall j :: 0 <= j < r.value ==> logs[j].id != id
    ensures r.None? ==> forall j :: 0 <= j < |logs| ==> logs[j].id != id
  {
    FirstWhere(logs, (l: EmailLog) => l.id == id)
  }

  /** The type tag of the stored metadata, read back as an `EmailType`. */
  function TypeOf(data: EmailData): EmailType {
    match data
    case Verification(_, _) => VerificationType
    case Welcome(_) => WelcomeType
    case PasswordReset(_, _) => PasswordResetType
    case OtpMail(_, _) => OtpType
  }

  /** A row `resendFailedEmail` sends again: it exists, failed, and carries typed metadata. */
  predicate Resendable(logs: seq<EmailLog>, id: nat) {
    var i := FindLog(logs, id);
    i.Some? && logs[i.value].status == Failed && logs[i.value].metadata.Some?
  }

  /** `resendFailedEmail(emailLogId)`: only a failed row that carries typed metadata
      is sent again, from scratch, with its recipient, data and user; anything else
      answers `false` and writes nothing. */
  function ResendFailedEmail(logs: seq<EmailLog>, id: nat, trace: seq<Try>): (r: (seq<EmailLog>, bool))
    requires Covers(trace, 0)
    ensures !Resendable(logs, id) ==> r == (logs, false)
    ensures Resendable(logs, id) ==>
              var row := logs[FindLog(logs, id).value];
              && |r.0| > |logs| && r.0[..|logs|] == logs
              && r.0[|logs|].attempts == 0
              && (forall k :: |logs| <= k < |r.0| ==>
                    && r.0[k].to == row.to && r.0[k].metadata == row.metadata && r.0[k].userId == row.userId
                    && r.0[k].subject == Subject(row.metadata.value) && FreshIn(r.0[k].id, logs))
              && (r.1 <==> r.0[|r.0| - 1].status == Sent)
    ensures r.1 ==> Resendable(logs, id)
  {
    match FindLog(logs, id)
    case None => (logs, false)
    case Some(i) =>
      var row := logs[i];
      if row.status != Failed then (logs, false)
      else match row.metadata
        case None => (logs, false)
        case Some(data) =>
          var run := SendTemplatedEmail(logs, TypeOf(data), row.to, data, row.userId, trace);
          (logs + run.rows, run.delivered)
  }

  /** A resent row is delivered exactly when one of the four fresh attempts is
      delivered after only plain failures, as for a first send. */
  lemma ResendDeliveredIffSomeAttemptSucceeds(logs: seq<EmailLog>, id: nat, trace: seq<Try>)
    requires Covers(trace, 0)
    ensures ResendFailedEmail(logs, id, trace).1 <==>
              Resendable(logs, id)
              && exists k :: 0 <= k <= MaxRetries && trace[k].outcome == Delivered && FailedBetween(trace, 0, k)
  {
    if Resendable(logs, id) {
      var row := logs[FindLog(logs, id).value];
      var data := row.metadata.value;
      DeliveredIffSomeAttemptSucceeds(logs, Mail(row.to, Subject(data), row.userId, Some(data)), trace);
    }
  }

  /** Whether a template's component can be built as written. The verification
      template is loaded with `const { VerificationEmail } = await import(...)`,
      a named import, but its module exports the component only as `default`, so
      the binding is `undefined` and calling it throws; the other three templates
      are loaded through `default`. */
  predicate TemplateLoadsAsWritten(data: EmailData) {
    !data.Verification?
  }

  /** `sendTemplatedEmail` as written: `None` is the rejected promise. The throw
      comes from building the component, before `sendEmailWithRetry` runs, so
      nothing is logged and the client is never called. */
  function SendTemplatedEmailAsWritten(logs: seq<EmailLog>, emailType: EmailType, to: string, data: EmailData,
                                       userId: Option<nat>, trace: seq<Try>): (r: Option<EmailRun>)
    requires Covers(trace, 0)
    ensures r.None? <==> data.Verification?
    ensures r.Some? ==> |r.value.rows| >= 1 && forall k :: 0 <= k < |r.value.rows| ==> r.value.rows[k].subject == Subject(data)
  {
    if TemplateLoadsAsWritten(data) then Some(SendTemplatedEmail(logs, emailType, to, data, userId, trace))
    else None
  }

  /** `resendFailedEmail` as written, over the throwing template step: `None` is
      the rejected promise, which it does not catch. */
  function ResendFailedEmailAsWritten(logs: seq<EmailLog>, id: nat, trace: seq<Try>): (r: Option<(seq<EmailLog>, bool)>)
    requires Covers(trace, 0)
    ensures r.None? <==> Resendable(logs, id) && logs[FindLog(logs, id).value].metadata.value.Verification?
    ensures r.Some? ==> r.value == ResendFailedEmail(logs, id, trace)
  {
    match FindLog(logs, id)
    case None => Some((logs, false))
    case Some(i) =>
      var row := logs[i];
      if row.status != Failed then Some((logs, false))
      else match row.metadata
        case None => Some((logs, false))
        case Some(data) =>
          match SendTemplatedEmailAsWritten(logs, TypeOf(data), row.to, data, row.userId, trace)
          case None => None
          case Some(run) => Some((logs + run.rows, run.delivered))
  }

  /** The as-written template step never sends a verification mail: for every
      recipient and every client behaviour the call throws and logs nothing, where
      the intended step logs at least one attempt under the verification subject. */
  lemma VerificationTemplateThrowsAsWritten(logs: seq<EmailLog>, emailType: EmailType, to: string,
                                            username: string, url: string, userId: Option<nat>, trace: seq<Try>)
    requires Covers(trace, 0)
    ensures SendTemplatedEmailAsWritten(logs, emailType, to, Verification(username, url), userId, trace).None?
    ensures var run := SendTemplatedEmail(logs, emailType, to, Verification(username, url), userId, trace);
            |run.rows| >= 1 && run.rows[0].subject == "Verify your email address"
  {
  }

  /** As written, a failed verification mail can never be resent: the call throws
      and the log is left as it was. */
  lemma FailedVerificationMailStuckAsWritten(logs: seq<EmailLog>, id: nat, trace: seq<Try>)
    requires Covers(trace, 0)
    requires Resendable(logs, id) && logs[FindLog(logs, id).value].metadata.value.Verification?
    ensures ResendFailedEmailAsWritten(logs, id, trace).None?
    ensures |ResendFailedEmail(logs, id, trace).0| > |logs|
  {
  }
}
