/** The sign-up handler (app/api/auth/signup/route.ts): validation, the signup limiter,
    the existence check, a pending account, one `signup` attempt, and then either an SMS
    code (phone method) or a stored verification token and an email (email method).
    Salts, the code draw, the token bytes, the SMS verdict and the mail step are inputs,
    and so is whether the email branch's token helper resolves. */
module SignUp {
  import opened Base
  import opened Accounts
  import opened Errors
  import opened Responses
  import opened Store
  import RateLimit
  import Validation
  import Bcrypt
  import Tokens
  import Otp
  import Password

  /** The 201 answers of the two methods. */
  datatype SignUpData =
    | PhoneAccount(userId: nat, phone: string, message: string)
    | EmailAccount(userId: nat, email: string, message: string)

  const AccountCreated: string := "Account created successfully"
  const PhoneTaken: string := "An account with this phone number already exists"
  const EmailTaken: string := "An account with this email already exists"
  const OtpSendFailed: AuthError := Custom("Failed to send verification code", "OTP_SEND_FAILED", 500)

  function SchemaFor(phone: bool): Validation.Schema {
    if phone then Validation.SignUpPhoneSchema else Validation.SignUpEmailSchema
  }

  /** The role a `role` value names; validation admits only the four names. */
  function RoleNamed(s: string): Role {
    if s == "seller" then Seller else if s == "sme" then Sme else if s == "trainer" then Trainer else Buyer
  }

  function RoleName(r: Role): string {
    match r
    case Buyer => "buyer"
    case Seller => "seller"
    case Sme => "sme"
    case Trainer => "trainer"
  }

  /** Every role has a name the schema admits, and that name reads back as the role. */
  lemma RoleNamesRoundTrip(r: Role)
    ensures RoleName(r) in Validation.Roles && RoleNamed(RoleName(r)) == r
  {
    assert Validation.Roles[0] == "buyer" && Validation.Roles[1] == "seller";
    assert Validation.Roles[2] == "sme" && Validation.Roles[3] == "trainer";
  }

  /** A freshly created account: pending, unverified, one role, and exactly one of the
      two contact columns set, the one the method names. */
  predicate PendingAccount(u: User, phone: bool, identifier: string, fullName: string, role: Role) {
    && u.status == Pending && u.verificationStatus == Unverified
    && u.roles == [role] && u.fullName == Some(fullName)
    && Handle(u, phone) == Some(identifier) && Handle(u, !phone).None?
    && u.emailVerified.None? && !u.phoneVerified && u.loginCount == 0
  }

  /** The signup limiter refuses the identifier. */
  predicate Limited(logs: seq<RateLimit.SecurityLog>, identifier: string, now: Time) {
    RateLimit.CountAttempts(logs, identifier, RateLimit.Signup, now) >= RateLimit.Limits(RateLimit.Signup).maxAttempts
  }

  /** The account sign-up creates at lines 57-67. */
  function NewAccount(users: seq<User>, phone: bool, identifier: string, fullName: string,
                      passwordHash: string, role: Role): (u: User)
    ensures PendingAccount(u, phone, identifier, fullName, role)
    ensures FindUserById(users, u.id).None? && u.passwordHash == Some(passwordHash)
  {
    User(NextUserId(users),
         if phone then None else Some(identifier),
         if phone then Some(identifier) else None,
         Some(fullName), None, Some(passwordHash), [role], Pending, Unverified, None, false, 0, None)
  }

  /** The phone branch, lines 76-92: `sendOTP(phone, userId)`. Its limiter's error is
      rethrown; a failed SMS is `OTP_SEND_FAILED`; the account stays either way. */
  function ConfirmByPhone(st: Store, u: User, now: Time, h: Bcrypt.Hasher, draw: real, otpSalt: string,
                          smsSent: bool): (o: Outcome<Response<SignUpData>>)
    requires Bcrypt.Sound(h) && 0.0 <= draw < 1.0 && u.phone.Some?
    ensures o.store.users == st.users && o.store.sessions == st.sessions && o.store.tokens == st.tokens
    ensures |st.logs| <= |o.store.logs| <= |st.logs| + 1 && o.store.logs[..|st.logs|] == st.logs
    ensures RateLimit.CountAttempts(o.store.logs, u.phone.value, RateLimit.Signup, now)
            == RateLimit.CountAttempts(st.logs, u.phone.value, RateLimit.Signup, now)
    ensures RateLimit.CheckRateLimit(st.logs, u.phone.value, RateLimit.Otp, now).Some? ==>
              o.store == st && o.reply.status == 429
    ensures RateLimit.CheckRateLimit(st.logs, u.phone.value, RateLimit.Otp, now).None? ==>
              && |o.store.otps| == |st.otps| + 1 && o.store.otps[..|st.otps|] == st.otps
              && o.store.otps[|st.otps|].phone == u.phone.value && !o.store.otps[|st.otps|].used
              && (smsSent ==> o.reply.status == 201 && o.reply.Success()
                              && o.reply.body.data == PhoneAccount(u.id, u.phone.value, "Account created. Please verify your phone number."))
              && (!smsSent ==> o.reply == ErrorResponse(Auth(OtpSendFailed)) && o.reply.status == 500)
  {
    var phone := u.phone.value;
    var step := Otp.SendOtp(st.otps, st.logs, phone, Some(u.id), now, h, draw, otpSalt, smsSent);
    var st' := st.(otps := step.otps, logs := step.logs);
    match step.reply
    case Threw(e) => Outcome(st', ErrorResponse(Auth(e)))
    case Returned(result) =>
      OtherActionRow(st.logs, step.logs, phone, RateLimit.Signup, now);
      if !result.success then Outcome(st', ErrorResponse(Auth(NewAuthError("Failed to send verification code", "OTP_SEND_FAILED", Some(500)))))
      else Outcome(st', SuccessResponse(PhoneAccount(u.id, phone, "Account created. Please verify your phone number."),
                                        Some(AccountCreated), 201))
  }

  /** The email branch, lines 93-127, with the token helper resolved: a day-long
      verification token is stored (its bcrypt digest, under the email), the link
      carrying the plaintext is mailed, and the mail's result does not matter unless
      the call throws. */
  function ConfirmByEmail(st: Store, u: User, now: Time, h: Bcrypt.Hasher, bytes: seq<Tokens.byte>,
                          tokenSalt: string, mail: MailStep): (o: Outcome<Response<SignUpData>>)
    requires Bcrypt.Sound(h) && |bytes| == Tokens.DefaultTokenBytes && u.email.Some?
    ensures o.store == st.(tokens := o.store.tokens)
    ensures |o.store.tokens| == |st.tokens| + 1 && o.store.tokens[..|st.tokens|] == st.tokens
    ensures var row := o.store.tokens[|st.tokens|];
            && row.identifier == u.email.value && row.expires == now + 24 * 60 * 60 * 1000
            && Bcrypt.DigestShaped(row.token) && Bcrypt.Verify(h, Tokens.GenerateToken(bytes), row.token)
    ensures mail.MailThrows? ==> o.reply.status == 500
    ensures mail.MailReturns? ==>
              o.reply.status == 201 && o.reply.Success() && o.reply.body.message == Some(AccountCreated)
              && o.reply.body.data == EmailAccount(u.id, u.email.value, "Account created. Please check your email to verify your account.")
  {
    var secret := Tokens.GenerateVerificationToken(h, bytes, tokenSalt);
    Tokens.TokenRoundTrip(bytes);
    var st' := st.(tokens := st.tokens + [VerificationToken(u.email.value, secret.digest, now + VerificationTtl)]);
    match mail
    case MailThrows => Outcome(st', ErrorResponse(Unexpected))
    case MailReturns =>
      Outcome(st', SuccessResponse(EmailAccount(u.id, u.email.value, "Account created. Please check your email to verify your account."),
                                   Some(AccountCreated), 201))
  }

  /** The helper the email branch imports as `generateTokenWithHash` (line 4).
      lib/auth/tokens.ts exports no function of that name, so as written the
      binding is `undefined`: `Missing`. `Exported` stands for the helper that
      module does export for this purpose, `generateVerificationToken`. */
  datatype TokenHelper = Missing | Exported

  /** The email branch as written: calling the missing helper at line 95 throws
      before the token is stored or the mail sent, and the catch at lines 129-132
      answers 500. What was written before the branch (the account, the `signup`
      attempt) stays. */
  function ConfirmByEmailAsWritten(st: Store, u: User): (o: Outcome<Response<SignUpData>>)
    requires u.email.Some?
    ensures o.store == st && o.reply.status == 500 && !o.reply.Success()
  {
    Outcome(st, ErrorResponse(Unexpected))
  }

  /** Lines 75-128: the method's own verification step, which adds no account and no
      session, counts no `signup` attempt and keeps the rows already logged. */
  function Confirm(st: Store, u: User, phone: bool, now: Time, h: Bcrypt.Hasher,
                   draw: real, otpSalt: string, smsSent: bool,
                   bytes: seq<Tokens.byte>, tokenSalt: string, mail: MailStep,
                   helper: TokenHelper, identifier: string): (o: Outcome<Response<SignUpData>>)
    requires Bcrypt.Sound(h) && 0.0 <= draw < 1.0 && |bytes| == Tokens.DefaultTokenBytes
    requires phone ==> u.phone == Some(identifier)
    requires !phone ==> u.email.Some?
    ensures o.store.users == st.users && o.store.sessions == st.sessions
    ensures |o.store.logs| >= |st.logs| && o.store.logs[..|st.logs|] == st.logs
    ensures RateLimit.CountAttempts(o.store.logs, identifier, RateLimit.Signup, now)
            == RateLimit.CountAttempts(st.logs, identifier, RateLimit.Signup, now)
    ensures phone ==> o.store.tokens == st.tokens
    ensures !phone ==> o.store.otps == st.otps
  {
    if phone then ConfirmByPhone(st, u, now, h, draw, otpSalt, smsSent)
    else if helper.Missing? then ConfirmByEmailAsWritten(st, u)
    else ConfirmByEmail(st, u, now, h, bytes, tokenSalt, mail)
  }

  /** Lines 70-73: the `signup` attempt records the method and the role's name. */
  function SignUpMetadata(phone: bool, role: Role): RateLimit.Metadata {
    map["method" := RateLimit.MText(if phone then "phone" else "email"), "role" := RateLimit.MText(RoleName(role))]
  }

  /** Lines 53-128, once the identifier is known to be free: the pending account, its
      `signup` attempt, then the method's verification step. */
  function CreateAccount(st: Store, phone: bool, identifier: string, fullName: string, password: string, role: Role,
                         now: Time, h: Bcrypt.Hasher, passwordSalt: string,
                         draw: real, otpSalt: string, smsSent: bool,
                         bytes: seq<Tokens.byte>, tokenSalt: string, mail: MailStep,
                         helper: TokenHelper): (o: Outcome<Response<SignUpData>>)
    requires Bcrypt.Sound(h) && 0.0 <= draw < 1.0 && |bytes| == Tokens.DefaultTokenBytes
    // Exactly one pending account is added, with a fresh id and the password given.
    ensures |o.store.users| == |st.users| + 1 && o.store.users[..|st.users|] == st.users
    ensures PendingAccount(o.store.users[|st.users|], phone, identifier, fullName, role)
    ensures FindUserById(st.users, o.store.users[|st.users|].id).None?
    ensures o.store.users[|st.users|].passwordHash.Some?
            && Password.VerifyPassword(h, password, o.store.users[|st.users|].passwordHash.value)
    // Exactly one more `signup` attempt counts; it is the first row written, names the
    // account, and records the method and the role.
    ensures RateLimit.CountAttempts(o.store.logs, identifier, RateLimit.Signup, now)
            == RateLimit.CountAttempts(st.logs, identifier, RateLimit.Signup, now) + 1
    ensures |o.store.logs| > |st.logs| && o.store.logs[..|st.logs|] == st.logs
    ensures o.store.logs[|st.logs|].eventType == "signup"
            && o.store.logs[|st.logs|].userId == Some(o.store.users[|st.users|].id)
            && o.store.logs[|st.logs|].metadata == SignUpMetadata(phone, role)
    ensures phone ==> o.store.tokens == st.tokens
    ensures !phone ==> o.store.otps == st.otps
    ensures o.store.sessions == st.sessions
  {
    var passwordHash := Password.HashPassword(h, password, passwordSalt);
    var u := NewAccount(st.users, phone, identifier, fullName, passwordHash, role);
    var st' := Enroll(st, u, phone, identifier, role, now);
    var o := Confirm(st', u, phone, now, h, draw, otpSalt, smsSent, bytes, tokenSalt, mail, helper, identifier);
    assert o.store.logs[..|st.logs|] == st.logs && o.store.logs[|st.logs|] == st'.logs[|st.logs|] by {
      assert o.store.logs[..|st'.logs|] == st'.logs;
    }
    o
  }

  /** Lines 56-73: the account row, then its `signup` attempt. */
  function Enroll(st: Store, u: User, phone: bool, identifier: string, role: Role, now: Time): (st': Store)
    ensures st' == st.(users := st'.users, logs := st'.logs)
    ensures st'.users == st.users + [u]
    ensures |st'.logs| == |st.logs| + 1 && st'.logs[..|st.logs|] == st.logs
    ensures st'.logs[|st.logs|].eventType == "signup" && st'.logs[|st.logs|].userId == Some(u.id)
            && st'.logs[|st.logs|].metadata == SignUpMetadata(phone, role)
    ensures RateLimit.CountAttempts(st'.logs, identifier, RateLimit.Signup, now)
            == RateLimit.CountAttempts(st.logs, identifier, RateLimit.Signup, now) + 1
  {
    var metadata := Some(SignUpMetadata(phone, role));
    var logs := RateLimit.LogRateLimitAttempt(st.logs, identifier, RateLimit.Action.Signup.Name(), Some(u.id), metadata, now);
    OneMoreAttempt(st.logs, identifier, RateLimit.Signup, Some(u.id), metadata, now);
    st.(users := st.users + [u], logs := logs)
  }

  /** Everything after validation, lines 34-128, given the method and the parsed fields. */
  function Register(st: Store, phone: bool, identifier: string, fullName: string, password: string, role: Role,
                    now: Time, h: Bcrypt.Hasher, passwordSalt: string,
                    draw: real, otpSalt: string, smsSent: bool,
                    bytes: seq<Tokens.byte>, tokenSalt: string, mail: MailStep,
                    helper: TokenHelper): (o: Outcome<Response<SignUpData>>)
    requires Bcrypt.Sound(h) && 0.0 <= draw < 1.0 && |bytes| == Tokens.DefaultTokenBytes
    // The limiter runs before the existence check; a refusal writes nothing.
    ensures Limited(st.logs, identifier, now) ==> o.store == st && o.reply.status == 429
    // An identifier already in use is a `ValidationError` and nothing is written.
    ensures !Limited(st.logs, identifier, now) && FindAccount(st.users, phone, identifier).Some? ==>
              o.store == st && o.reply == ErrorResponse(Auth(Validation(if phone then PhoneTaken else EmailTaken)))
    // Otherwise exactly one pending account is added, whose password is the one given,
    // and exactly one more `signup` attempt counts against the identifier.
    ensures !Limited(st.logs, identifier, now) && FindAccount(st.users, phone, identifier).None? ==>
              && |o.store.users| == |st.users| + 1 && o.store.users[..|st.users|] == st.users
              && PendingAccount(o.store.users[|st.users|], phone, identifier, fullName, role)
              && FindUserById(st.users, o.store.users[|st.users|].id).None?
              && o.store.users[|st.users|].passwordHash.Some?
              && Password.VerifyPassword(h, password, o.store.users[|st.users|].passwordHash.value)
              && RateLimit.CountAttempts(o.store.logs, identifier, RateLimit.Signup, now)
                 == RateLimit.CountAttempts(st.logs, identifier, RateLimit.Signup, now) + 1
              // The attempt is the first row written, and it names the account, method and role.
              && |o.store.logs| > |st.logs| && o.store.logs[..|st.logs|] == st.logs
              && o.store.logs[|st.logs|].eventType == "signup"
              && o.store.logs[|st.logs|].userId == Some(o.store.users[|st.users|].id)
              && o.store.logs[|st.logs|].metadata == SignUpMetadata(phone, role)
    // Only the method's own table gains a row.
    ensures phone ==> o.store.tokens == st.tokens
    ensures !phone ==> o.store.otps == st.otps
    ensures o.store.sessions == st.sessions
  {
    match RateLimit.CheckRateLimit(st.logs, identifier, RateLimit.Signup, now)
    case Some(e) => Outcome(st, ErrorResponse(Auth(e)))
    case None =>
      if FindAccount(st.users, phone, identifier).Some? then
        Outcome(st, ErrorResponse(Auth(Validation(if phone then PhoneTaken else EmailTaken))))
      else
        CreateAccount(st, phone, identifier, fullName, password, role, now, h, passwordSalt,
                      draw, otpSalt, smsSent, bytes, tokenSalt, mail, helper)
  }

  /** Whatever the outcome, a registration adds at most one account and keeps the others. */
  lemma AtMostOneAccount(st: Store, phone: bool, identifier: string, fullName: string, password: string,
                         role: Role, now: Time, h: Bcrypt.Hasher, passwordSalt: string,
                         draw: real, otpSalt: string, smsSent: bool,
                         bytes: seq<Tokens.byte>, tokenSalt: string, mail: MailStep, helper: TokenHelper)
    requires Bcrypt.Sound(h) && 0.0 <= draw < 1.0 && |bytes| == Tokens.DefaultTokenBytes
    ensures var o := Register(st, phone, identifier, fullName, password, role, now, h, passwordSalt,
                              draw, otpSalt, smsSent, bytes, tokenSalt, mail, helper);
            |st.users| <= |o.store.users| <= |st.users| + 1 && o.store.users[..|st.users|] == st.users
  {
  }

  /** `POST /api/auth/signup`. A `null` body makes `body.phone` throw: a 500. */
  function SignUp(st: Store, body: Validation.Json, now: Time, h: Bcrypt.Hasher, isEmail: string -> bool,
                  passwordSalt: string, draw: real, otpSalt: string, smsSent: bool,
                  bytes: seq<Tokens.byte>, tokenSalt: string, mail: MailStep,
                  helper: TokenHelper): (o: Outcome<Response<SignUpData>>)
    requires Bcrypt.Sound(h) && 0.0 <= draw < 1.0 && |bytes| == Tokens.DefaultTokenBytes
    ensures body.JNull? ==> o.store == st && o.reply.status == 500
    // A body the method's schema rejects is answered before the limiter or the account table.
    ensures !body.JNull? && Validation.ValidateSchema(SchemaFor(PhoneMethod(body)), body, isEmail).Invalid? ==>
              o.store == st
              && o.reply == ValidationErrorResponse(Validation.ValidateSchema(SchemaFor(PhoneMethod(body)), body, isEmail).errors)
    ensures o.store.sessions == st.sessions
    ensures |st.users| <= |o.store.users| <= |st.users| + 1 && o.store.users[..|st.users|] == st.users
  {
    if body.JNull? then Outcome(st, ErrorResponse(Unexpected))
    else
      var phone := PhoneMethod(body);
      match Validation.ValidateSchema(SchemaFor(phone), body, isEmail)
      case Invalid(errors) => Outcome(st, ValidationErrorResponse(errors))
      case Valid(data) =>
        var identifier := Text(data, if phone then "phone" else "email");
        var fullName := Text(data, "fullName");
        var password := Text(data, "password");
        var role := RoleNamed(Text(data, "role"));
        AtMostOneAccount(st, phone, identifier, fullName, password, role, now, h, passwordSalt,
                         draw, otpSalt, smsSent, bytes, tokenSalt, mail, helper);
        Register(st, phone, identifier, fullName, password, role, now, h, passwordSalt,
                 draw, otpSalt, smsSent, bytes, tokenSalt, mail, helper)
  }

  /** A sign-up for an identifier already in use writes nothing and fails. */
  lemma TakenIdentifierRefused(st: Store, phone: bool, identifier: string, fullName: string, password: string,
                               role: Role, now: Time, h: Bcrypt.Hasher, passwordSalt: string,
                               draw: real, otpSalt: string, smsSent: bool,
                               bytes: seq<Tokens.byte>, tokenSalt: string, mail: MailStep, helper: TokenHelper)
    requires Bcrypt.Sound(h) && 0.0 <= draw < 1.0 && |bytes| == Tokens.DefaultTokenBytes
    requires FindAccount(st.users, phone, identifier).Some?
    ensures var o := Register(st, phone, identifier, fullName, password, role, now, h, passwordSalt,
                              draw, otpSalt, smsSent, bytes, tokenSalt, mail, helper);
            o.store == st && !o.reply.Success()
  {
    if !Limited(st.logs, identifier, now) {
      assert !ErrorResponse<SignUpData>(Auth(Validation(if phone then PhoneTaken else EmailTaken))).Success();
    }
  }

  /** A second sign-up with the same identifier is refused and changes nothing, once the
      first one created its account. */
  lemma SecondSignUpRefused(st: Store, phone: bool, identifier: string, fullName: string, password: string,
                            role: Role, now: Time, h: Bcrypt.Hasher, passwordSalt: string,
                            draw: real, otpSalt: string, smsSent: bool,
                            bytes: seq<Tokens.byte>, tokenSalt: string, mail: MailStep, helper: TokenHelper,
                            fullName2: string, password2: string, role2: Role)
    requires Bcrypt.Sound(h) && 0.0 <= draw < 1.0 && |bytes| == Tokens.DefaultTokenBytes
    requires !Limited(st.logs, identifier, now) && FindAccount(st.users, phone, identifier).None?
    ensures var o := Register(st, phone, identifier, fullName, password, role, now, h, passwordSalt,
                              draw, otpSalt, smsSent, bytes, tokenSalt, mail, helper);
            var o2 := Register(o.store, phone, identifier, fullName2, password2, role2, now, h, passwordSalt,
                               draw, otpSalt, smsSent, bytes, tokenSalt, mail, helper);
            o2.store == o.store && !o2.reply.Success()
  {
    var o := Register(st, phone, identifier, fullName, password, role, now, h, passwordSalt,
                      draw, otpSalt, smsSent, bytes, tokenSalt, mail, helper);
    assert Handle(o.store.users[|st.users|], phone) == Some(identifier);
    TakenIdentifierRefused(o.store, phone, identifier, fullName2, password2, role2, now, h, passwordSalt,
                           draw, otpSalt, smsSent, bytes, tokenSalt, mail, helper);
  }

  /** As written, an email sign-up that passes the limiter and the existence check
      keeps the new account and its `signup` attempt but stores no token and
      answers 500: no verification link is ever issued. */
  lemma EmailSignUpFailsAsWritten(st: Store, identifier: string, fullName: string, password: string,
                                  role: Role, now: Time, h: Bcrypt.Hasher, passwordSalt: string,
                                  draw: real, otpSalt: string, smsSent: bool,
                                  bytes: seq<Tokens.byte>, tokenSalt: string, mail: MailStep)
    requires Bcrypt.Sound(h) && 0.0 <= draw < 1.0 && |bytes| == Tokens.DefaultTokenBytes
    requires !Limited(st.logs, identifier, now) && FindAccount(st.users, false, identifier).None?
    ensures var o := Register(st, false, identifier, fullName, password, role, now, h, passwordSalt,
                              draw, otpSalt, smsSent, bytes, tokenSalt, mail, Missing);
            && |o.store.users| == |st.users| + 1
            && PendingAccount(o.store.users[|st.users|], false, identifier, fullName, role)
            && o.store.tokens == st.tokens && o.reply.status == 500
  {
  }

  /** With the exported helper the same sign-up stores one link for the email and,
      when the mail step returns, answers 201. */
  lemma EmailSignUpIssuesLink(st: Store, identifier: string, fullName: string, password: string,
                              role: Role, now: Time, h: Bcrypt.Hasher, passwordSalt: string,
                              draw: real, otpSalt: string, smsSent: bool,
                              bytes: seq<Tokens.byte>, tokenSalt: string)
    requires Bcrypt.Sound(h) && 0.0 <= draw < 1.0 && |bytes| == Tokens.DefaultTokenBytes
    requires !Limited(st.logs, identifier, now) && FindAccount(st.users, false, identifier).None?
    ensures var o := Register(st, false, identifier, fullName, password, role, now, h, passwordSalt,
                              draw, otpSalt, smsSent, bytes, tokenSalt, MailReturns, Exported);
            && |o.store.users| == |st.users| + 1
            && |o.store.tokens| == |st.tokens| + 1 && o.store.tokens[|st.tokens|].identifier == identifier
            && Bcrypt.Verify(h, Tokens.GenerateToken(bytes), o.store.tokens[|st.tokens|].token)
            && o.reply.status == 201
  {
  }

  /** Exporting the token helper alone does not rescue email sign-up: the mail call at
      line 108 throws as written (lib/email/send.ts exports no `sendEmailWithLogging`),
      so the link row is stored but the answer is still 500 and no mail goes out. */
  lemma EmailSignUpMailThrowsAsWritten(st: Store, identifier: string, fullName: string, password: string,
                                       role: Role, now: Time, h: Bcrypt.Hasher, passwordSalt: string,
                                       draw: real, otpSalt: string, smsSent: bool,
                                       bytes: seq<Tokens.byte>, tokenSalt: string)
    requires Bcrypt.Sound(h) && 0.0 <= draw < 1.0 && |bytes| == Tokens.DefaultTokenBytes
    requires !Limited(st.logs, identifier, now) && FindAccount(st.users, false, identifier).None?
    ensures var o := Register(st, false, identifier, fullName, password, role, now, h, passwordSalt,
                              draw, otpSalt, smsSent, bytes, tokenSalt, MailAsWritten, Exported);
            && |o.store.users| == |st.users| + 1
            && |o.store.tokens| == |st.tokens| + 1 && o.store.tokens[|st.tokens|].identifier == identifier
            && o.reply.status == 500 && !o.reply.Success()
  {
  }
}
