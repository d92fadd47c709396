/** The sign-in handler (app/api/auth/signin/route.ts). The gates run in a fixed order:
    the body's shape, the login limiter, the credentials, the account status, the
    method's verification flag; only a request that passes all of them gets a session.
    The device description and the random bytes of the session token are inputs. */
module SignIn {
  import opened Base
  import opened Accounts
  import opened Errors
  import opened Responses
  import opened Store
  import Sessions
  import RateLimit
  import Validation
  import Bcrypt
  import Tokens
  import Fingerprint
  import Password

  /** What a signed-in client learns about its account: never the password hash. */
  datatype PublicUser = PublicUser(
    id: nat,
    email: Option<string>,
    fullName: Option<string>,
    profilePictureUrl: Option<string>,
    roles: seq<Role>,
    status: UserStatus)

  function Public(u: User): PublicUser {
    PublicUser(u.id, u.email, u.fullName, u.profilePictureUrl, u.roles, u.status)
  }

  /** The two successful answers: "verify first", or a new session. */
  datatype SignInData =
    | NeedsVerification(userId: nat, verificationType: string, message: string)
    | SignedIn(user: PublicUser, sessionToken: string, expiresAt: Time)

  const InvalidCredentials: AuthError := Unauthorized("Invalid credentials")
  const SuspendedMessage: string := "Your account has been suspended. Please contact support."
  const InactiveMessage: string := "Your account is no longer active"
  const VerificationRequired: string := "Verification required"

  function SchemaFor(phone: bool): Validation.Schema {
    if phone then Validation.SignInPhoneSchema else Validation.SignInEmailSchema
  }

  /** The field that names the account under the chosen method. */
  function IdentifierKey(phone: bool): string {
    if phone then "phone" else "email"
  }

  /** The login limiter refuses the identifier. */
  predicate Limited(logs: seq<RateLimit.SecurityLog>, identifier: string, now: Time) {
    RateLimit.CountAttempts(logs, identifier, RateLimit.Login, now) >= RateLimit.Limits(RateLimit.Login).maxAttempts
  }

  /** The named account exists, has a password, and the password matches it. */
  predicate PasswordAccepted(users: seq<User>, phone: bool, identifier: string, password: string, h: Bcrypt.Hasher) {
    var k := FindAccount(users, phone, identifier);
    k.Some? && Truthy(users[k.value].passwordHash)
    && Password.VerifyPassword(h, password, users[k.value].passwordHash.value)
  }

  /** Accounts the status gates turn away. */
  predicate Barred(u: User) {
    u.status.Suspended? || u.status.Deleted? || u.status.Deactivated?
  }

  /** The method's verification flag: `phoneVerified`, or a set `emailVerified` stamp. */
  predicate MethodVerified(u: User, phone: bool) {
    if phone then u.phoneVerified else u.emailVerified.Some?
  }

  /** Every gate before the session passes. */
  predicate Admitted(st: Store, phone: bool, identifier: string, password: string, h: Bcrypt.Hasher, now: Time) {
    && !Limited(st.logs, identifier, now)
    && PasswordAccepted(st.users, phone, identifier, password, h)
    && var u := st.users[FindAccount(st.users, phone, identifier).value];
       !Barred(u) && MethodVerified(u, phone)
  }

  /** Only the security log changed, by `added` rows appended at its end. */
  predicate LogsGrew(st: Store, st': Store, added: nat) {
    && st' == st.(logs := st'.logs)
    && |st'.logs| == |st.logs| + added && st'.logs[..|st.logs|] == st.logs
  }

  /** The session row a sign-in adds: the account's, active, carrying the token and
      expiry the client is given, which is a day ahead or thirty with `rememberMe`. */
  predicate NewSession(s: Sessions.Session, u: User, d: SignInData, rememberMe: bool, now: Time) {
    && d.SignedIn?
    && s.userId == u.id && s.isActive && s.token == d.sessionToken
    && s.expiresAt == d.expiresAt == now + Sessions.SessionTtl(rememberMe)
  }

  /** The `login` attempt a refusal logs: `{ success: false, reason }`. */
  predicate RefusalRow(r: RateLimit.SecurityLog, reason: string) {
    && r.eventType == "login"
    && r.metadata == map["success" := RateLimit.MBool(false), "reason" := RateLimit.MText(reason)]
  }

  const UserNotFoundReason: string := "user_not_found"
  const InvalidPasswordReason: string := "invalid_password"

  /** A refused credential writes a `failed_login` warning without metadata, then a
      `login` attempt that records the failure and its reason. */
  function RefuseCredentials(st: Store, identifier: string, userId: Option<nat>, description: string,
                             reason: string, device: Fingerprint.DeviceInfo, now: Time): (o: Outcome<Response<SignInData>>)
    ensures o.reply == ErrorResponse(Auth(InvalidCredentials)) && o.reply.status == 401
    ensures LogsGrew(st, o.store, 2)
    ensures o.store.logs[|st.logs|].eventType == "failed_login" && o.store.logs[|st.logs|].suspicious
            && o.store.logs[|st.logs|].description == description && o.store.logs[|st.logs|].metadata == map[]
    ensures RefusalRow(o.store.logs[|st.logs| + 1], reason) && o.store.logs[|st.logs| + 1].userId == userId
    ensures !RateLimit.RecordsSuccess(o.store.logs[|st.logs| + 1], true)
    ensures RateLimit.CountAttempts(o.store.logs, identifier, RateLimit.Login, now)
            == RateLimit.CountAttempts(st.logs, identifier, RateLimit.Login, now) + 1
  {
    var logs1 := RateLimit.LogSuspiciousActivity(st.logs, "failed_login", description, userId,
                                                 device.ipAddress, device.userAgent, None, now);
    var metadata := Some(map["success" := RateLimit.MBool(false), "reason" := RateLimit.MText(reason)]);
    var logs2 := RateLimit.LogRateLimitAttempt(logs1, identifier, RateLimit.Action.Login.Name(), userId, metadata, now);
    RateLimit.SuspiciousRowsCountOnlyForTheirType(st.logs, "failed_login", description, userId,
                                                  device.ipAddress, device.userAgent, None, identifier, RateLimit.Login, now);
    OneMoreAttempt(logs1, identifier, RateLimit.Login, userId, metadata, now);
    assert logs2[..|st.logs|] == logs1[..|st.logs|];
    Outcome(st.(logs := logs2), ErrorResponse(Auth(InvalidCredentials)))
  }

  /** Lines 81-147 of the handler, for the account whose password matched: the status
      gates, the verification gate, then the session and a successful `login` attempt. */
  function Admit(st: Store, u: User, phone: bool, identifier: string, rememberMe: bool,
                 device: Fingerprint.DeviceInfo, now: Time,
                 entropy: seq<Tokens.byte>, sha256: string -> string): (o: Outcome<Response<SignInData>>)
    // A barred account is refused and nothing is written.
    ensures Barred(u) ==>
              o.store == st && o.reply.status == 401 && !o.reply.Success()
              && o.reply.body.error.message == if u.status.Suspended? then SuspendedMessage else InactiveMessage
    // An unverified method gets "verify first" and nothing is written.
    ensures !Barred(u) && !MethodVerified(u, phone) ==>
              o.store == st && o.reply.Success() && o.reply.body.message == Some(VerificationRequired)
              && o.reply.body.data.NeedsVerification? && o.reply.body.data.userId == u.id
    // A session appears exactly when both gates passed and the store took the row.
    ensures |o.store.sessions| > |st.sessions|
            <==> !Barred(u) && MethodVerified(u, phone)
                 && Sessions.CreateSession(st.users, st.sessions, u.id, device, rememberMe, now, entropy, sha256).Some?
    ensures |o.store.sessions| <= |st.sessions| ==> o.store == st
    ensures o.reply.Success() && o.reply.body.data.SignedIn? ==>
              && !Barred(u) && MethodVerified(u, phone)
              && o.reply.status == 200 && o.reply.body.data.user == Public(u)
              && |o.store.sessions| == |st.sessions| + 1 && o.store.sessions[..|st.sessions|] == st.sessions
              && NewSession(o.store.sessions[|st.sessions|], u, o.reply.body.data, rememberMe, now)
              && |o.store.logs| == |st.logs| + 1 && o.store.logs[..|st.logs|] == st.logs
              && o.store.logs[|st.logs|].eventType == "login" && o.store.logs[|st.logs|].userId == Some(u.id)
              && o.store.logs[|st.logs|].metadata == map["success" := RateLimit.MBool(true)]
              && RateLimit.CountAttempts(o.store.logs, identifier, RateLimit.Login, now)
                 == RateLimit.CountAttempts(st.logs, identifier, RateLimit.Login, now) + 1
    ensures o.store.otps == st.otps && o.store.tokens == st.tokens
  {
    if u.status.Suspended? then
      Outcome(st, ErrorResponse(Auth(NewUnauthorized(Some(SuspendedMessage)))))
    else if u.status.Deleted? || u.status.Deactivated? then
      Outcome(st, ErrorResponse(Auth(NewUnauthorized(Some(InactiveMessage)))))
    else if !MethodVerified(u, phone) then
      var message := "Please verify your " + (if phone then "phone number" else "email") + " before signing in.";
      var kind := if phone then "phone" else "email";
      Outcome(st, SuccessResponse(NeedsVerification(u.id, kind, message), Some(VerificationRequired), DefaultSuccessStatus))
    else
      match Sessions.CreateSession(st.users, st.sessions, u.id, device, rememberMe, now, entropy, sha256)
      case None => Outcome(st, ErrorResponse(Unexpected))
      case Some(c) =>
        var metadata := Some(map["success" := RateLimit.MBool(true)]);
        var logs := RateLimit.LogRateLimitAttempt(st.logs, identifier, RateLimit.Action.Login.Name(), Some(u.id), metadata, now);
        OneMoreAttempt(st.logs, identifier, RateLimit.Login, Some(u.id), metadata, now);
        Outcome(st.(users := c.users, sessions := c.sessions, logs := logs),
                SuccessResponse(SignedIn(Public(u), c.token, c.expiresAt), None, DefaultSuccessStatus))
  }

  /** Everything after validation: lines 31-147 of the handler, given the method, the
      identifier, the password and the `rememberMe` flag. */
  function Authenticate(st: Store, phone: bool, identifier: string, password: string, rememberMe: bool,
                        device: Fingerprint.DeviceInfo, now: Time, h: Bcrypt.Hasher,
                        entropy: seq<Tokens.byte>, sha256: string -> string): (o: Outcome<Response<SignInData>>)
    // The limiter runs first; a refusal writes nothing and looks at no account.
    ensures Limited(st.logs, identifier, now) ==>
              o.store == st && o.reply.status == 429 && !o.reply.Success() && o.reply.body.error.code == "RATE_LIMIT_EXCEEDED"
    // An unknown account, one without a password and a wrong password get the same
    // answer, and each counts one more login attempt.
    ensures !Limited(st.logs, identifier, now) && !PasswordAccepted(st.users, phone, identifier, password, h) ==>
              && o.reply == ErrorResponse(Auth(InvalidCredentials))
              && LogsGrew(st, o.store, 2)
              && RateLimit.CountAttempts(o.store.logs, identifier, RateLimit.Login, now)
                 == RateLimit.CountAttempts(st.logs, identifier, RateLimit.Login, now) + 1
              // The logged attempt tells the two refusals apart, though the answer does not.
              && var k := FindAccount(st.users, phone, identifier);
                 RefusalRow(o.store.logs[|st.logs| + 1],
                            if k.None? || !Truthy(st.users[k.value].passwordHash) then UserNotFoundReason
                            else InvalidPasswordReason)
    // Past the limiter and the password, the account the form names goes to the remaining gates.
    ensures !Limited(st.logs, identifier, now) && PasswordAccepted(st.users, phone, identifier, password, h) ==>
              o == Admit(st, st.users[FindAccount(st.users, phone, identifier).value], phone, identifier,
                         rememberMe, device, now, entropy, sha256)
    // A session appears only when every gate passed.
    ensures |o.store.sessions| > |st.sessions| ==> Admitted(st, phone, identifier, password, h, now)
    ensures o.store.otps == st.otps && o.store.tokens == st.tokens
  {
    match RateLimit.CheckRateLimit(st.logs, identifier, RateLimit.Login, now)
    case Some(e) => Outcome(st, ErrorResponse(Auth(e)))
    case None =>
      var found := FindAccount(st.users, phone, identifier);
      if found.None? || !Truthy(st.users[found.value].passwordHash) then
        RefuseCredentials(st, identifier, None, "Failed login attempt for " + identifier, UserNotFoundReason, device, now)
      else
        var u := st.users[found.value];
        if !Password.VerifyPassword(h, password, u.passwordHash.value) then
          RefuseCredentials(st, identifier, Some(u.id), "Invalid password for " + identifier, InvalidPasswordReason, device, now)
        else
          Admit(st, u, phone, identifier, rememberMe, device, now, entropy, sha256)
  }

  /** `POST /api/auth/signin`. A `null` body makes `body.phone` throw, which the catch
      turns into a 500. */
  function SignIn(st: Store, body: Validation.Json, device: Fingerprint.DeviceInfo, now: Time,
                  h: Bcrypt.Hasher, isEmail: string -> bool,
                  entropy: seq<Tokens.byte>, sha256: string -> string): (o: Outcome<Response<SignInData>>)
    ensures body.JNull? ==> o.store == st && o.reply.status == 500
    // A body the method's schema rejects is answered before any limiter or account is consulted.
    ensures !body.JNull? && Validation.ValidateSchema(SchemaFor(PhoneMethod(body)), body, isEmail).Invalid? ==>
              o.store == st
              && o.reply == ValidationErrorResponse(Validation.ValidateSchema(SchemaFor(PhoneMethod(body)), body, isEmail).errors)
    ensures o.store.otps == st.otps && o.store.tokens == st.tokens
  {
    if body.JNull? then Outcome(st, ErrorResponse(Unexpected))
    else
      var phone := PhoneMethod(body);
      match Validation.ValidateSchema(SchemaFor(phone), body, isEmail)
      case Invalid(errors) => Outcome(st, ValidationErrorResponse(errors))
      case Valid(data) =>
        Authenticate(st, phone, Text(data, IdentifierKey(phone)), Text(data, "password"),
                     JsTruthy(Prop(body, "rememberMe")), device, now, h, entropy, sha256)
  }

  /** The identifier and password a valid body carries, and the `rememberMe` flag read
      from the raw body (`body.rememberMe || false`). */
  lemma ValidBodyReachesAuthenticate(st: Store, body: Validation.Json, device: Fingerprint.DeviceInfo, now: Time,
                                     h: Bcrypt.Hasher, isEmail: string -> bool,
                                     entropy: seq<Tokens.byte>, sha256: string -> string)
    requires !body.JNull? && Validation.ValidateSchema(SchemaFor(PhoneMethod(body)), body, isEmail).Valid?
    ensures body.JObject? && Validation.StringAt(body.fields, IdentifierKey(PhoneMethod(body)))
            && Validation.StringAt(body.fields, "password")
    ensures SignIn(st, body, device, now, h, isEmail, entropy, sha256)
            == Authenticate(st, PhoneMethod(body), body.fields[IdentifierKey(PhoneMethod(body))].s,
                            body.fields["password"].s, JsTruthy(Prop(body, "rememberMe")),
                            device, now, h, entropy, sha256)
  {
    var phone := PhoneMethod(body);
    if phone {
      Validation.SignInPhoneAccepts(body, isEmail);
    } else {
      Validation.SignInEmailAccepts(body, isEmail);
    }
    var data := Validation.ValidateSchema(SchemaFor(phone), body, isEmail).data;
    assert SchemaFor(phone).fields[0].name == IdentifierKey(phone) && SchemaFor(phone).fields[1].name == "password";
    assert IdentifierKey(phone) in data && "password" in data;
  }

  /** Account enumeration is not possible through the answer: an unknown account and a
      known account with the wrong password get the same response. */
  lemma FailuresIndistinguishable(st1: Store, st2: Store, phone: bool, identifier: string, password: string,
                                  rememberMe: bool, device: Fingerprint.DeviceInfo, now: Time, h: Bcrypt.Hasher,
                                  entropy: seq<Tokens.byte>, sha256: string -> string)
    requires !Limited(st1.logs, identifier, now) && !Limited(st2.logs, identifier, now)
    requires FindAccount(st1.users, phone, identifier).None?
    requires var k := FindAccount(st2.users, phone, identifier);
             k.Some? && Truthy(st2.users[k.value].passwordHash)
             && !Password.VerifyPassword(h, password, st2.users[k.value].passwordHash.value)
    ensures Authenticate(st1, phone, identifier, password, rememberMe, device, now, h, entropy, sha256).reply
            == Authenticate(st2, phone, identifier, password, rememberMe, device, now, h, entropy, sha256).reply
  {
  }

  /** The `login` attempts agree with the sessions: the last row Authenticate writes is a
      `login` attempt, and it records success exactly when a session was created; no
      session is created without one. */
  lemma LoginRowRecordsSession(st: Store, phone: bool, identifier: string, password: string,
                               rememberMe: bool, device: Fingerprint.DeviceInfo, now: Time, h: Bcrypt.Hasher,
                               entropy: seq<Tokens.byte>, sha256: string -> string)
    ensures var o := Authenticate(st, phone, identifier, password, rememberMe, device, now, h, entropy, sha256);
            |o.store.logs| > |st.logs| ==>
              && o.store.logs[|o.store.logs| - 1].eventType == "login"
              && (RateLimit.RecordsSuccess(o.store.logs[|o.store.logs| - 1], true) <==> |o.store.sessions| > |st.sessions|)
    ensures var o := Authenticate(st, phone, identifier, password, rememberMe, device, now, h, entropy, sha256);
            |o.store.sessions| > |st.sessions| ==> |o.store.logs| > |st.logs|
  {
  }

  /** Five refused sign-ins inside fifteen minutes lock the identifier out: the next
      request is refused by the limiter whatever password it carries. */
  lemma FifthFailureLocksOut(st: Store, phone: bool, identifier: string, password: string, guess: string,
                             rememberMe: bool, device: Fingerprint.DeviceInfo, now: Time, h: Bcrypt.Hasher,
                             entropy: seq<Tokens.byte>, sha256: string -> string)
    requires RateLimit.CountAttempts(st.logs, identifier, RateLimit.Login, now) == 4
    requires !PasswordAccepted(st.users, phone, identifier, password, h)
    ensures var o := Authenticate(st, phone, identifier, password, rememberMe, device, now, h, entropy, sha256);
            Authenticate(o.store, phone, identifier, guess, rememberMe, device, now, h, entropy, sha256).reply.status == 429
  {
  }

  /** Without `rememberMe` in the body a session lives a day; with a truthy one, thirty. */
  lemma SessionLifetime(st: Store, body: Validation.Json, device: Fingerprint.DeviceInfo, now: Time,
                        h: Bcrypt.Hasher, isEmail: string -> bool,
                        entropy: seq<Tokens.byte>, sha256: string -> string)
    requires !body.JNull? && Validation.ValidateSchema(SchemaFor(PhoneMethod(body)), body, isEmail).Valid?
    ensures var o := SignIn(st, body, device, now, h, isEmail, entropy, sha256);
            o.reply.Success() && o.reply.body.data.SignedIn? ==>
              o.reply.body.data.expiresAt
              == now + (if JsTruthy(Prop(body, "rememberMe")) then 30 * 24 else 24) * 60 * 60 * 1000
  {
    ValidBodyReachesAuthenticate(st, body, device, now, h, isEmail, entropy, sha256);
  }
}
