/** The resend-verification handler (app/api/auth/resend-verification/route.ts): the body
    is validated as `{ email }`, the email limiter runs, an unknown email is a 404, an
    already-verified account only gets a message, and otherwise every token of the email
    is replaced by one new day-long token, the link is mailed and one `email` attempt is
    logged. The token bytes, the salt and the mail step are inputs. */
module ResendVerification {
  import opened Base
  import opened Accounts
  import opened Errors
  import opened Responses
  import opened Store
  import RateLimit
  import Validation
  import Bcrypt
  import Tokens
  import Fingerprint
  import VerifyEmail

  /** The `{ message }` payload of the handler's answers. */
  datatype Notice = Notice(message: string)

  const NoAccount: string := "No account found with this email"
  const AlreadyVerified: string := "Email is already verified. You can sign in."
  const Sent: string := "Verification email sent. Please check your inbox."

  /** The email limiter refuses the address. */
  predicate Limited(logs: seq<RateLimit.SecurityLog>, email: string, now: Time) {
    RateLimit.CountAttempts(logs, email, RateLimit.Email, now) >= RateLimit.Limits(RateLimit.Email).maxAttempts
  }

  /** Lines 44-57: `deleteMany` of the email's tokens, then the new row. */
  function Reissue(tokens: seq<VerificationToken>, email: string, row: VerificationToken): (r: seq<VerificationToken>)
    requires row.identifier == email
    ensures |r| > 0 && r[|r| - 1] == row
    ensures forall t :: t in r && t.identifier == email ==> t == row
    ensures forall t: VerificationToken :: t.identifier != email ==> (t in r <==> t in tokens)
    ensures forall t :: t in r[..|r| - 1] ==> t in tokens
  {
    var kept := Keep(tokens, (t: VerificationToken) => t.identifier != email);
    assert (kept + [row])[..|kept|] == kept;
    kept + [row]
  }

  /** Lines 44-82 for an unverified account: the email's tokens are replaced by one
      new day-long row, the link is mailed and, once the mail returns, one `email`
      attempt is logged. */
  function SendLink(st: Store, u: User, email: string, now: Time, h: Bcrypt.Hasher, bytes: seq<Tokens.byte>,
                    tokenSalt: string, mail: MailStep): (o: Outcome<Response<Notice>>)
    requires Bcrypt.Sound(h) && |bytes| == Tokens.DefaultTokenBytes
    ensures |o.store.tokens| > 0
    ensures var row := o.store.tokens[|o.store.tokens| - 1];
            && row.identifier == email && row.expires == now + 24 * 60 * 60 * 1000
            && Bcrypt.DigestShaped(row.token) && Bcrypt.Verify(h, Tokens.GenerateToken(bytes), row.token)
            && (forall t :: t in o.store.tokens && t.identifier == email ==> t == row)
    ensures forall t: VerificationToken :: t.identifier != email ==> (t in o.store.tokens <==> t in st.tokens)
    ensures mail.MailReturns? ==>
              && o.reply.Success() && o.reply.status == 200 && o.reply.body.data == Notice(Sent)
              && |o.store.logs| == |st.logs| + 1 && o.store.logs[..|st.logs|] == st.logs
              && o.store.logs[|st.logs|].userId == Some(u.id)
              && o.store.logs[|st.logs|].metadata == map["action" := RateLimit.MText("resend_verification")]
              && RateLimit.CountAttempts(o.store.logs, email, RateLimit.Email, now)
                 == RateLimit.CountAttempts(st.logs, email, RateLimit.Email, now) + 1
    ensures mail.MailThrows? ==> o.reply.status == 500 && o.store.logs == st.logs
    ensures o.store.users == st.users && o.store.sessions == st.sessions && o.store.otps == st.otps
  {
    var row := VerifyEmail.Issued(h, bytes, tokenSalt, email, now);
    var st' := st.(tokens := Reissue(st.tokens, email, row));
    match mail
    case MailThrows => Outcome(st', ErrorResponse(Unexpected))
    case MailReturns =>
      var metadata := Some(map["action" := RateLimit.MText("resend_verification")]);
      var logs := RateLimit.LogRateLimitAttempt(st.logs, email, RateLimit.Action.Email.Name(), Some(u.id), metadata, now);
      OneMoreAttempt(st.logs, email, RateLimit.Email, Some(u.id), metadata, now);
      Outcome(st'.(logs := logs), SuccessResponse(Notice(Sent), None, DefaultSuccessStatus))
  }

  /** Everything after validation, lines 22-82, for the parsed address. */
  function ResendTo(st: Store, email: string, now: Time, h: Bcrypt.Hasher, bytes: seq<Tokens.byte>,
                    tokenSalt: string, mail: MailStep): (o: Outcome<Response<Notice>>)
    requires Bcrypt.Sound(h) && |bytes| == Tokens.DefaultTokenBytes
    // The limiter runs before the account lookup; a refusal writes nothing.
    ensures Limited(st.logs, email, now) ==> o.store == st && o.reply.status == 429
    ensures !Limited(st.logs, email, now) && FindUserByEmail(st.users, email).None? ==>
              o.store == st && o.reply == ErrorResponse(Auth(NotFound(NoAccount))) && o.reply.status == 404
    // An account already verified: a message, no token change and no attempt logged.
    ensures !Limited(st.logs, email, now) && FindUserByEmail(st.users, email).Some?
            && st.users[FindUserByEmail(st.users, email).value].emailVerified.Some? ==>
              o.store == st && o.reply.Success() && o.reply.body.data == Notice(AlreadyVerified)
    // Otherwise the link is reissued and mailed.
    ensures !Limited(st.logs, email, now) && FindUserByEmail(st.users, email).Some?
            && st.users[FindUserByEmail(st.users, email).value].emailVerified.None? ==>
              o == SendLink(st, st.users[FindUserByEmail(st.users, email).value], email, now, h, bytes, tokenSalt, mail)
    ensures o.store.users == st.users && o.store.sessions == st.sessions && o.store.otps == st.otps
  {
    match RateLimit.CheckRateLimit(st.logs, email, RateLimit.Email, now)
    case Some(e) => Outcome(st, ErrorResponse(Auth(e)))
    case None =>
      match FindUserByEmail(st.users, email)
      case None => Outcome(st, ErrorResponse(Auth(NewNotFound(Some(NoAccount)))))
      case Some(k) =>
        var u := st.users[k];
        if u.emailVerified.Some? then Outcome(st, SuccessResponse(Notice(AlreadyVerified), None, DefaultSuccessStatus))
        else SendLink(st, u, email, now, h, bytes, tokenSalt, mail)
  }

  /** `POST /api/auth/resend-verification`. */
  function Resend(st: Store, body: Validation.Json, now: Time, h: Bcrypt.Hasher, isEmail: string -> bool,
                  bytes: seq<Tokens.byte>, tokenSalt: string, mail: MailStep): (o: Outcome<Response<Notice>>)
    requires Bcrypt.Sound(h) && |bytes| == Tokens.DefaultTokenBytes
    // The body is validated before anything else is consulted.
    ensures Validation.ValidateSchema(Validation.ForgotPasswordSchema, body, isEmail).Invalid? ==>
              o.store == st
              && o.reply == ValidationErrorResponse(Validation.ValidateSchema(Validation.ForgotPasswordSchema, body, isEmail).errors)
    ensures Validation.ValidateSchema(Validation.ForgotPasswordSchema, body, isEmail).Valid? ==>
              body.JObject? && Validation.StringAt(body.fields, "email")
              && o == ResendTo(st, body.fields["email"].s, now, h, bytes, tokenSalt, mail)
    ensures o.store.users == st.users && o.store.sessions == st.sessions && o.store.otps == st.otps
  {
    match Validation.ValidateSchema(Validation.ForgotPasswordSchema, body, isEmail)
    case Invalid(errors) => Outcome(st, ValidationErrorResponse(errors))
    case Valid(data) =>
      Validation.ForgotPasswordAccepts(body, isEmail);
      assert Validation.ForgotPasswordSchema.fields[0].name == "email";
      ResendTo(st, Text(data, "email"), now, h, bytes, tokenSalt, mail)
  }

  /** Lines 22-82 as written, where the mail call at line 62 always throws: a resend
      that reaches the token step has already replaced the email's tokens, answers 500,
      and never gets to the `logRateLimitAttempt` of line 74, so the limiter's log is
      never written and the success message is never given. */
  function ResendToAsWritten(st: Store, email: string, now: Time, h: Bcrypt.Hasher, bytes: seq<Tokens.byte>,
                             tokenSalt: string): (o: Outcome<Response<Notice>>)
    requires Bcrypt.Sound(h) && |bytes| == Tokens.DefaultTokenBytes
    ensures o.store.logs == st.logs
    ensures o.reply.Success() ==> o.reply.body.data == Notice(AlreadyVerified)
    ensures !Limited(st.logs, email, now) && FindUserByEmail(st.users, email).Some?
            && st.users[FindUserByEmail(st.users, email).value].emailVerified.None? ==>
              && o.reply.status == 500
              && |o.store.tokens| > 0
              && Bcrypt.Verify(h, Tokens.GenerateToken(bytes), o.store.tokens[|o.store.tokens| - 1].token)
  {
    ResendTo(st, email, now, h, bytes, tokenSalt, MailAsWritten)
  }

  /** One as-written resend after another, each with fresh token bytes, at one instant. */
  function ResendRepeatedlyAsWritten(st: Store, email: string, now: Time, h: Bcrypt.Hasher,
                                     draws: seq<seq<Tokens.byte>>, tokenSalt: string): Store
    requires Bcrypt.Sound(h) && forall i :: 0 <= i < |draws| ==> |draws[i]| == Tokens.DefaultTokenBytes
    decreases |draws|
  {
    if |draws| == 0 then st
    else ResendRepeatedlyAsWritten(ResendToAsWritten(st, email, now, h, draws[0], tokenSalt).store,
                                   email, now, h, draws[1..], tokenSalt)
  }

  /** As written the email limiter never trips on resends: however many follow one
      another, none is logged, so an address the limiter admits stays admitted. With a
      returning mail step each one counts (`SendLink`), and the sixth within the hour is
      refused. */
  lemma {:induction false} ResendsNeverLimitedAsWritten(st: Store, email: string, now: Time, h: Bcrypt.Hasher,
                                                        draws: seq<seq<Tokens.byte>>, tokenSalt: string)
    requires Bcrypt.Sound(h) && forall i :: 0 <= i < |draws| ==> |draws[i]| == Tokens.DefaultTokenBytes
    requires !Limited(st.logs, email, now)
    ensures ResendRepeatedlyAsWritten(st, email, now, h, draws, tokenSalt).logs == st.logs
    ensures !Limited(ResendRepeatedlyAsWritten(st, email, now, h, draws, tokenSalt).logs, email, now)
    decreases |draws|
  {
    if |draws| > 0 {
      var next := ResendToAsWritten(st, email, now, h, draws[0], tokenSalt).store;
      ResendsNeverLimitedAsWritten(next, email, now, h, draws[1..], tokenSalt);
    }
  }

  /** After a resend that reaches the token step, the table is the older rows of other
      emails followed by the one new row, and the account table is untouched. */
  lemma Reissued(st: Store, email: string, now: Time, h: Bcrypt.Hasher, bytes: seq<Tokens.byte>,
                 tokenSalt: string, mail: MailStep)
    requires Bcrypt.Sound(h) && |bytes| == Tokens.DefaultTokenBytes
    requires !Limited(st.logs, email, now) && FindUserByEmail(st.users, email).Some?
    requires st.users[FindUserByEmail(st.users, email).value].emailVerified.None?
    ensures var tokens := ResendTo(st, email, now, h, bytes, tokenSalt, mail).store.tokens;
            && |tokens| > 0 && tokens[|tokens| - 1] == VerifyEmail.Issued(h, bytes, tokenSalt, email, now)
            && forall t :: t in tokens[..|tokens| - 1] ==> t.identifier != email && t in st.tokens
  {
    var row := VerifyEmail.Issued(h, bytes, tokenSalt, email, now);
    var u := st.users[FindUserByEmail(st.users, email).value];
    assert SendLink(st, u, email, now, h, bytes, tokenSalt, mail).store.tokens == Reissue(st.tokens, email, row);
  }

  /** Rows taken from a table none of whose rows verifies a plaintext verify it neither. */
  lemma KeptRowsMiss(tokens: seq<VerificationToken>, kept: seq<VerificationToken>, link: string, h: Bcrypt.Hasher)
    requires forall t :: t in kept ==> t in tokens
    requires VerifyEmail.FindTokenByDigest(tokens, link, h).None?
    ensures VerifyEmail.FindTokenByDigest(kept, link, h).None?
  {
    forall j | 0 <= j < |kept|
      ensures !Bcrypt.Verify(h, link, kept[j].token)
    {
      assert kept[j] in kept;
      var i :| 0 <= i < |tokens| && tokens[i] == kept[j];
    }
  }

  /** A resent link, followed within the day, activates the account under the digest
      lookup, provided no older row happens to verify the same plaintext. */
  lemma ResentLinkActivates(st: Store, email: string, issuedAt: Time, now: Time, h: Bcrypt.Hasher,
                            bytes: seq<Tokens.byte>, tokenSalt: string, device: Fingerprint.DeviceInfo,
                            entropy: seq<Tokens.byte>, sha256: string -> string, mail: MailStep)
    requires Bcrypt.Sound(h) && |bytes| == Tokens.DefaultTokenBytes
    requires !Limited(st.logs, email, issuedAt) && FindUserByEmail(st.users, email).Some?
    requires st.users[FindUserByEmail(st.users, email).value].emailVerified.None?
    requires VerifyEmail.FindTokenByDigest(st.tokens, Tokens.GenerateToken(bytes), h).None?
    requires issuedAt <= now <= issuedAt + VerificationTtl
    ensures var r := ResendTo(st, email, issuedAt, h, bytes, tokenSalt, mail);
            var v := VerifyEmail.VerifyEmail(r.store, Some(Tokens.GenerateToken(bytes)), now, h, device, entropy, sha256, mail);
            VerifyEmail.ActivatedAt(v.store.users[FindUserByEmail(st.users, email).value], now)
  {
    var row := VerifyEmail.Issued(h, bytes, tokenSalt, email, issuedAt);
    var r := ResendTo(st, email, issuedAt, h, bytes, tokenSalt, mail);
    Reissued(st, email, issuedAt, h, bytes, tokenSalt, mail);
    var link := Tokens.GenerateToken(bytes);
    var kept := r.store.tokens[..|r.store.tokens| - 1];
    assert r.store.tokens == kept + [row];
    KeptRowsMiss(st.tokens, kept, link, h);
    var before := r.store.(tokens := kept);
    assert r.store == before.(tokens := before.tokens + [row]);
    VerifyEmail.IssuedLinkActivates(before, h, bytes, tokenSalt, email, issuedAt, now, device, entropy, sha256, mail);
  }

  /** A link drawn from other bytes never verifies against a row issued for these. */
  lemma OtherLinkRejected(h: Bcrypt.Hasher, bytes: seq<Tokens.byte>, other: seq<Tokens.byte>, tokenSalt: string,
                          email: string, issuedAt: Time)
    requires Bcrypt.Sound(h) && |bytes| == Tokens.DefaultTokenBytes && |other| == Tokens.DefaultTokenBytes
    requires bytes != other
    ensures !Bcrypt.Verify(h, Tokens.GenerateToken(other), VerifyEmail.Issued(h, bytes, tokenSalt, email, issuedAt).token)
  {
    var link := Tokens.GenerateToken(bytes);
    Tokens.TokenRoundTrip(bytes);
    Tokens.TokenRoundTrip(other);
    assert VerifyEmail.Issued(h, bytes, tokenSalt, email, issuedAt).token == Bcrypt.Hash(h, link, tokenSalt);
    Tokens.TokenKeyLength(bytes);
    Bcrypt.VerifyWithinLimit(h, link, tokenSalt, Tokens.GenerateToken(other));
  }

  /** Two reissues in a row leave only the second row and rows of other emails that
      were there before: a plaintext none of those verifies matches nothing. */
  lemma NoEarlierRowVerifies(t0: seq<VerificationToken>, t1: seq<VerificationToken>, t2: seq<VerificationToken>,
                             email: string, link: string, h: Bcrypt.Hasher)
    requires |t1| > 0 && t1[|t1| - 1].identifier == email
    requires forall t :: t in t1[..|t1| - 1] ==> t.identifier != email && t in t0
    requires |t2| > 0 && !Bcrypt.Verify(h, link, t2[|t2| - 1].token)
    requires forall t :: t in t2[..|t2| - 1] ==> t.identifier != email && t in t1
    requires VerifyEmail.FindTokenByDigest(t0, link, h).None?
    ensures forall j :: 0 <= j < |t2| ==> !Bcrypt.Verify(h, link, t2[j].token)
  {
    forall j | 0 <= j < |t2| - 1
      ensures !Bcrypt.Verify(h, link, t2[j].token)
    {
      assert t2[j] in t2[..|t2| - 1];
      var i :| 0 <= i < |t1| && t1[i] == t2[j];
      assert t1[i] in t1[..|t1| - 1];
      var k :| 0 <= k < |t0| && t0[k] == t2[j];
    }
  }

  /** A first resend under four attempts keeps the accounts and leaves the limiter
      room for a second one. */
  lemma FirstResendLeavesRoom(st: Store, email: string, now: Time, h: Bcrypt.Hasher,
                              bytes: seq<Tokens.byte>, salt: string)
    requires Bcrypt.Sound(h) && |bytes| == Tokens.DefaultTokenBytes
    requires RateLimit.CountAttempts(st.logs, email, RateLimit.Email, now) < 4
    requires FindUserByEmail(st.users, email).Some?
    requires st.users[FindUserByEmail(st.users, email).value].emailVerified.None?
    ensures var r1 := ResendTo(st, email, now, h, bytes, salt, MailReturns);
            r1.store.users == st.users && !Limited(r1.store.logs, email, now)
  {
    Reissued(st, email, now, h, bytes, salt, MailReturns);
  }

  /** Resending revokes the previous link: after a second resend, the first link's
      plaintext verifies against no stored row and is refused. */
  lemma ResendRevokesEarlierLink(st: Store, email: string, now: Time, h: Bcrypt.Hasher,
                                 bytes1: seq<Tokens.byte>, bytes2: seq<Tokens.byte>, salt1: string, salt2: string,
                                 later: Time, device: Fingerprint.DeviceInfo,
                                 entropy: seq<Tokens.byte>, sha256: string -> string, mail: MailStep)
    requires Bcrypt.Sound(h) && |bytes1| == Tokens.DefaultTokenBytes && |bytes2| == Tokens.DefaultTokenBytes
    requires bytes1 != bytes2
    requires RateLimit.CountAttempts(st.logs, email, RateLimit.Email, now) < 4
    requires FindUserByEmail(st.users, email).Some?
    requires st.users[FindUserByEmail(st.users, email).value].emailVerified.None?
    requires VerifyEmail.FindTokenByDigest(st.tokens, Tokens.GenerateToken(bytes1), h).None?
    ensures var r1 := ResendTo(st, email, now, h, bytes1, salt1, MailReturns);
            var r2 := ResendTo(r1.store, email, now, h, bytes2, salt2, mail);
            VerifyEmail.VerifyEmail(r2.store, Some(Tokens.GenerateToken(bytes1)), later, h, device, entropy, sha256, mail)
            == Outcome(r2.store, VerifyEmail.InvalidToken)
  {
    var r1 := ResendTo(st, email, now, h, bytes1, salt1, MailReturns);
    FirstResendLeavesRoom(st, email, now, h, bytes1, salt1);
    Reissued(st, email, now, h, bytes1, salt1, MailReturns);
    var r2 := ResendTo(r1.store, email, now, h, bytes2, salt2, mail);
    Reissued(r1.store, email, now, h, bytes2, salt2, mail);
    LaterRowsMissEarlierLink(st.tokens, r1.store.tokens, r2.store, email, now, h, bytes1, bytes2, salt2,
                             later, device, entropy, sha256, mail);
  }

  /** Once the table has been reissued twice for the email, the first link matches
      no row and verify-email refuses it. */
  lemma LaterRowsMissEarlierLink(t0: seq<VerificationToken>, t1: seq<VerificationToken>, st2: Store,
                                 email: string, now: Time, h: Bcrypt.Hasher,
                                 bytes1: seq<Tokens.byte>, bytes2: seq<Tokens.byte>, salt2: string,
                                 later: Time, device: Fingerprint.DeviceInfo,
                                 entropy: seq<Tokens.byte>, sha256: string -> string, mail: MailStep)
    requires Bcrypt.Sound(h) && |bytes1| == Tokens.DefaultTokenBytes && |bytes2| == Tokens.DefaultTokenBytes
    requires bytes1 != bytes2
    requires VerifyEmail.FindTokenByDigest(t0, Tokens.GenerateToken(bytes1), h).None?
    requires |t1| > 0 && t1[|t1| - 1].identifier == email
    requires forall t :: t in t1[..|t1| - 1] ==> t.identifier != email && t in t0
    requires |st2.tokens| > 0 && st2.tokens[|st2.tokens| - 1] == VerifyEmail.Issued(h, bytes2, salt2, email, now)
    requires forall t :: t in st2.tokens[..|st2.tokens| - 1] ==> t.identifier != email && t in t1
    ensures VerifyEmail.VerifyEmail(st2, Some(Tokens.GenerateToken(bytes1)), later, h, device, entropy, sha256, mail)
            == Outcome(st2, VerifyEmail.InvalidToken)
  {
    var link1 := Tokens.GenerateToken(bytes1);
    OtherLinkRejected(h, bytes2, bytes1, salt2, email, now);
    NoEarlierRowVerifies(t0, t1, st2.tokens, email, link1, h);
    VerifyEmail.UnmatchedLinkRefused(st2, link1, later, h, device, entropy, sha256, mail);
  }
}
