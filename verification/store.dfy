/** The tables the route handlers under app/api/auth/ read and write, and the request
    plumbing they share. Each handler is a transition from one store to the next plus
    the answer it gives; the Prisma calls are not transactional, so a handler that
    fails half-way keeps the writes it already made. */
module Store {
  import opened Base
  import opened Accounts
  import Sessions
  import Otp
  import RateLimit
  import Validation

  /** A row of the verification-token table: the email it was issued for, the
      `token` column and the expiry. */
  datatype VerificationToken = VerificationToken(identifier: string, token: string, expires: Time)

  /** A verification token lives for a day. */
  const VerificationTtl: int := 24 * MsPerHour

  datatype Store = Store(
    users: seq<User>,
    sessions: seq<Sessions.Session>,
    otps: seq<Otp.OtpToken>,
    logs: seq<RateLimit.SecurityLog>,
    tokens: seq<VerificationToken>)

  /** What a handler leaves behind: the store after its writes, and its answer. */
  datatype Outcome<R> = Outcome(store: Store, reply: R)

  /** The routes' `sendEmailWithLogging(...)` call. Whatever it returns is ignored, so all
      that matters is whether it throws. `MailReturns` stands for a build in which the
      name resolves to a logging sender; `MailThrows` for a failing one. */
  datatype MailStep = MailReturns | MailThrows

  /** The call as written: lib/email/send.ts exports `sendEmailWithRetry`,
      `sendTemplatedEmail` and `resendFailedEmail` but no `sendEmailWithLogging`, so the
      imported binding is `undefined` and every call throws. */
  const MailAsWritten: MailStep := MailThrows

  /** `body.key` on a parsed request body: only an object can hold the key. */
  function Prop(body: Validation.Json, key: string): (v: Option<Validation.Json>)
    ensures v.Some? <==> body.JObject? && key in body.fields
    ensures v.Some? ==> v.value == body.fields[key]
  {
    match body
    case JObject(fields) => if key in fields then Some(fields[key]) else None
    case _ => None
  }

  /** JavaScript truthiness of a property read (`!!body.key`); `undefined` is falsy. */
  predicate JsTruthy(v: Option<Validation.Json>) {
    match v
    case None => false
    case Some(JString(s)) => s != ""
    case Some(JNumber(n)) => n != 0
    case Some(JBool(b)) => b
    case Some(JNull) => false
    case Some(JArray(_)) => true
    case Some(JObject(_)) => true
  }

  /** `!!body.phone`: a truthy `phone` field selects the phone method. */
  predicate PhoneMethod(body: Validation.Json) {
    JsTruthy(Prop(body, "phone"))
  }

  /** The account column the method matches on. */
  function Handle(u: User, phone: bool): Option<string> {
    if phone then u.phone else u.email
  }

  /** `prisma.user.findFirst` on the method's column. */
  function FindAccount(users: seq<User>, phone: bool, identifier: string): (r: Option<nat>)
    ensures r.Some? ==> r.value < |users| && Handle(users[r.value], phone) == Some(identifier)
    ensures r.None? ==> forall j :: 0 <= j < |users| ==> Handle(users[j], phone) != Some(identifier)
  {
    if phone then FindUserByPhone(users, identifier) else FindUserByEmail(users, identifier)
  }

  /** A string field of parsed data (`data.key`). Every field the handlers read is a
      string field of the schema that accepted the data; the empty default is never used. */
  function Text(data: map<string, Validation.Json>, key: string): (s: string)
    ensures key in data && data[key].JString? ==> s == data[key].s
  {
    if key in data && data[key].JString? then data[key].s else ""
  }

  /** An attempt logged under an identifier counts once more against that identifier. */
  lemma OneMoreAttempt(logs: seq<RateLimit.SecurityLog>, identifier: string, a: RateLimit.Action,
                       userId: Option<nat>, metadata: Option<RateLimit.Metadata>, now: Time)
    ensures RateLimit.CountAttempts(RateLimit.LogRateLimitAttempt(logs, identifier, a.Name(), userId, metadata, now), identifier, a, now)
            == RateLimit.CountAttempts(logs, identifier, a, now) + 1
  {
    RateLimit.ContainsSelf(identifier);
    RateLimit.AttemptCountsForContainedIdentifier(logs, identifier, identifier, a, userId, metadata, now);
  }

  /** A row appended under another action's event type leaves the count unchanged. */
  lemma OtherActionRow(logs: seq<RateLimit.SecurityLog>, logs': seq<RateLimit.SecurityLog>, identifier: string,
                       a: RateLimit.Action, now: Time)
    requires |logs'| == |logs| + 1 && logs'[..|logs|] == logs && logs'[|logs|].eventType != a.Name()
    ensures RateLimit.CountAttempts(logs', identifier, a, now) == RateLimit.CountAttempts(logs, identifier, a, now)
  {
    RateLimit.CountAppend(logs, logs'[|logs|], identifier, a, now);
    assert logs' == logs + [logs'[|logs|]];
  }
}
