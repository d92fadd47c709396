/** The email-verification link handler (app/api/auth/verify-email/route.ts). It answers
    with a redirect: back to the sign-in page with an error code, or on to
    `/postauth?verified=true` with the account activated and a session opened.

    Sign-up and resend store the bcrypt digest of the token in the `token` column, but
    this handler looks the record up by equality with the plaintext the link carries.
    `VerifyEmailAsWritten` keeps that lookup; `VerifyEmail` finds the record whose digest
    the plaintext verifies, and is the one the rest of the model uses. */
module VerifyEmail {
  import opened Base
  import opened Accounts
  import opened Store
  import Sessions
  import Tokens
  import Bcrypt
  import Fingerprint

  /** `NextResponse.redirect(new URL(location, request.url))` */
  datatype Redirect = Redirect(location: string)

  function SignInError(code: string): Redirect {
    Redirect("/auth/signin?error=" + code)
  }

  const InvalidToken: Redirect := SignInError("invalid_token")
  const ExpiredToken: Redirect := SignInError("expired_token")
  const UserNotFound: Redirect := SignInError("user_not_found")
  const VerificationFailed: Redirect := SignInError("verification_failed")
  const PostAuth: Redirect := Redirect("/postauth?verified=true")

  /** Lines 24-26 as written: `where: { token }`, the link's plaintext against the column. */
  function FindTokenAsWritten(tokens: seq<VerificationToken>, token: string): (r: Option<nat>)
    ensures r.Some? ==> r.value < |tokens| && tokens[r.value].token == token
    ensures r.None? ==> forall j :: 0 <= j < |tokens| ==> tokens[j].token != token
  {
    FirstWhere(tokens, (t: VerificationToken) => t.token == token)
  }

  /** The lookup the stored digests call for: the first row whose digest the plaintext verifies. */
  function FindTokenByDigest(tokens: seq<VerificationToken>, token: string, h: Bcrypt.Hasher): (r: Option<nat>)
    ensures r.Some? ==> r.value < |tokens| && Bcrypt.Verify(h, token, tokens[r.value].token)
    ensures r.None? ==> forall j :: 0 <= j < |tokens| ==> !Bcrypt.Verify(h, token, tokens[j].token)
  {
    FirstWhere(tokens, (t: VerificationToken) => Bcrypt.Verify(h, token, t.token))
  }

  /** The table's compound key `(identifier, token)`. */
  predicate SameKey(t: VerificationToken, rec: VerificationToken) {
    t.identifier == rec.identifier && t.token == rec.token
  }

  /** `verificationToken.delete({ where: { identifier_token } })`: the record with the
      key goes, every other record stays. */
  function Spend(tokens: seq<VerificationToken>, rec: VerificationToken): (r: seq<VerificationToken>)
    ensures rec !in r
    ensures forall t :: t in r <==> t in tokens && !SameKey(t, rec)
  {
    Keep(tokens, (t: VerificationToken) => !SameKey(t, rec))
  }

  /** Lines 57-64: the account is verified and active from now on. */
  function Activate(u: User, now: Time): User {
    u.(emailVerified := Some(now), status := Active, verificationStatus := Verified)
  }

  /** Whether an account row has been through `Activate` at `now`. */
  predicate ActivatedAt(u: User, now: Time) {
    u.emailVerified == Some(now) && u.status == Active && u.verificationStatus == Verified
  }

  /** Lines 34-96, for the record the lookup found. */
  function Redeem(st: Store, rec: VerificationToken, now: Time, device: Fingerprint.DeviceInfo,
                  entropy: seq<Tokens.byte>, sha256: string -> string, mail: MailStep): (o: Outcome<Redirect>)
    // Expired: the record is deleted and nothing else changes.
    ensures Tokens.IsTokenExpired(now, rec.expires) ==>
              o.reply == ExpiredToken && o.store == st.(tokens := Spend(st.tokens, rec))
    // No account with that email: the record is kept and nothing changes.
    ensures !Tokens.IsTokenExpired(now, rec.expires) && FindUserByEmail(st.users, rec.identifier).None? ==>
              o == Outcome(st, UserNotFound)
    // Otherwise the account is activated and the record spent, whatever happens next;
    // the redirect says verified only when the welcome mail and the session both went through.
    ensures !Tokens.IsTokenExpired(now, rec.expires) && FindUserByEmail(st.users, rec.identifier).Some? ==>
              var j := FindUserByEmail(st.users, rec.identifier).value;
              && |o.store.users| == |st.users| && ActivatedAt(o.store.users[j], now)
              && (forall i :: 0 <= i < |st.users| && i != j ==>
                    o.store.users[i].status == st.users[i].status
                    && o.store.users[i].emailVerified == st.users[i].emailVerified)
              && o.store.tokens == Spend(st.tokens, rec)
              && (o.reply == PostAuth <==> mail.MailReturns? && |o.store.sessions| > |st.sessions|)
              && (o.reply != PostAuth ==> o.reply == VerificationFailed && o.store.sessions == st.sessions)
              && (|o.store.sessions| > |st.sessions| ==>
                    && |o.store.sessions| == |st.sessions| + 1 && o.store.sessions[..|st.sessions|] == st.sessions
                    && o.store.sessions[|st.sessions|].userId == st.users[j].id
                    && o.store.sessions[|st.sessions|].expiresAt == now + Sessions.SessionTtl(false))
    ensures o.store.logs == st.logs && o.store.otps == st.otps
  {
    if Tokens.IsTokenExpired(now, rec.expires) then
      Outcome(st.(tokens := Spend(st.tokens, rec)), ExpiredToken)
    else
      match FindUserByEmail(st.users, rec.identifier)
      case None => Outcome(st, UserNotFound)
      case Some(j) =>
        var u := st.users[j];
        var users := st.users[j := Activate(u, now)];
        var st' := st.(users := users, tokens := Spend(st.tokens, rec));
        if mail.MailThrows? then Outcome(st', VerificationFailed)
        else
          match Sessions.CreateSession(users, st.sessions, u.id, device, false, now, entropy, sha256)
          case None => Outcome(st', VerificationFailed)
          case Some(c) => Outcome(st'.(users := c.users, sessions := c.sessions), PostAuth)
  }

  /** `GET /api/auth/verify-email?token=...` exactly as written. */
  function VerifyEmailAsWritten(st: Store, token: Option<string>, now: Time, device: Fingerprint.DeviceInfo,
                                entropy: seq<Tokens.byte>, sha256: string -> string, mail: MailStep): (o: Outcome<Redirect>)
    ensures !Truthy(token) ==> o == Outcome(st, InvalidToken)
    ensures Truthy(token) && FindTokenAsWritten(st.tokens, token.value).None? ==> o == Outcome(st, InvalidToken)
    ensures Truthy(token) && FindTokenAsWritten(st.tokens, token.value).Some? ==>
              o == Redeem(st, st.tokens[FindTokenAsWritten(st.tokens, token.value).value], now, device, entropy, sha256, mail)
  {
    if !Truthy(token) then Outcome(st, InvalidToken)
    else
      match FindTokenAsWritten(st.tokens, token.value)
      case None => Outcome(st, InvalidToken)
      case Some(k) => Redeem(st, st.tokens[k], now, device, entropy, sha256, mail)
  }

  /** `GET /api/auth/verify-email?token=...` with the record found by its digest. */
  function VerifyEmail(st: Store, token: Option<string>, now: Time, h: Bcrypt.Hasher, device: Fingerprint.DeviceInfo,
                       entropy: seq<Tokens.byte>, sha256: string -> string, mail: MailStep): (o: Outcome<Redirect>)
    ensures !Truthy(token) ==> o == Outcome(st, InvalidToken)
    ensures Truthy(token) && FindTokenByDigest(st.tokens, token.value, h).None? ==> o == Outcome(st, InvalidToken)
    ensures Truthy(token) && FindTokenByDigest(st.tokens, token.value, h).Some? ==>
              var rec := st.tokens[FindTokenByDigest(st.tokens, token.value, h).value];
              Bcrypt.Verify(h, token.value, rec.token) && o == Redeem(st, rec, now, device, entropy, sha256, mail)
  {
    if !Truthy(token) then Outcome(st, InvalidToken)
    else
      match FindTokenByDigest(st.tokens, token.value, h)
      case None => Outcome(st, InvalidToken)
      case Some(k) => Redeem(st, st.tokens[k], now, device, entropy, sha256, mail)
  }

  /** Every stored token is a bcrypt digest, as sign-up and resend store them. */
  predicate TokensHashed(tokens: seq<VerificationToken>) {
    forall i :: 0 <= i < |tokens| ==> Bcrypt.DigestShaped(tokens[i].token)
  }

  /** A plaintext the token generator can produce: hex digits only. */
  predicate HexText(s: string) {
    forall i :: 0 <= i < |s| ==> Tokens.IsHexChar(s[i])
  }

  /** As written, no link ever verifies: a hex plaintext never equals a stored digest,
      because a digest starts with `$`. Every request ends in `invalid_token` and
      changes nothing. */
  lemma AsWrittenNeverVerifies(st: Store, token: string, now: Time, device: Fingerprint.DeviceInfo,
                               entropy: seq<Tokens.byte>, sha256: string -> string, mail: MailStep)
    requires TokensHashed(st.tokens) && HexText(token)
    ensures VerifyEmailAsWritten(st, Some(token), now, device, entropy, sha256, mail) == Outcome(st, InvalidToken)
  {
    if token != "" {
      forall j | 0 <= j < |st.tokens|
        ensures st.tokens[j].token != token
      {
        assert Bcrypt.DigestShaped(st.tokens[j].token);
        assert Tokens.IsHexChar(token[0]);
        assert token[0] != '$';
      }
    }
  }

  /** The row resend appends for `email`, issued at `issuedAt` (and sign-up, once
      its token helper resolves). */
  function Issued(h: Bcrypt.Hasher, bytes: seq<Tokens.byte>, tokenSalt: string, email: string, issuedAt: Time): (row: VerificationToken)
    requires Bcrypt.Sound(h) && |bytes| == Tokens.DefaultTokenBytes
    ensures Bcrypt.DigestShaped(row.token) && Bcrypt.Verify(h, Tokens.GenerateToken(bytes), row.token)
    ensures row.identifier == email && row.expires == issuedAt + VerificationTtl
  {
    VerificationToken(email, Tokens.GenerateVerificationToken(h, bytes, tokenSalt).digest, issuedAt + VerificationTtl)
  }

  /** The link a resend issues is refused by the handler as written: the plaintext
      it carries is hex, and hex never equals a digest. */
  lemma IssuedLinkRefusedAsWritten(st: Store, h: Bcrypt.Hasher, bytes: seq<Tokens.byte>, tokenSalt: string,
                                   email: string, issuedAt: Time, now: Time, device: Fingerprint.DeviceInfo,
                                   entropy: seq<Tokens.byte>, sha256: string -> string, mail: MailStep)
    requires Bcrypt.Sound(h) && |bytes| == Tokens.DefaultTokenBytes
    requires TokensHashed(st.tokens)
    ensures var issued := st.(tokens := st.tokens + [Issued(h, bytes, tokenSalt, email, issuedAt)]);
            VerifyEmailAsWritten(issued, Some(Tokens.GenerateToken(bytes)), now, device, entropy, sha256, mail)
            == Outcome(issued, InvalidToken)
  {
    var row := Issued(h, bytes, tokenSalt, email, issuedAt);
    var issued := st.(tokens := st.tokens + [row]);
    forall i | 0 <= i < |issued.tokens|
      ensures Bcrypt.DigestShaped(issued.tokens[i].token)
    {
      if i < |st.tokens| {
        assert issued.tokens[i] == st.tokens[i];
      }
    }
    var link := Tokens.GenerateToken(bytes);
    assert link == Tokens.GenerateVerificationToken(h, bytes, tokenSalt).plaintext;
    AsWrittenNeverVerifies(issued, link, now, device, entropy, sha256, mail);
  }

  /** Under the digest lookup the same link, followed within the day, activates the
      account it was issued for and spends the record. */
  lemma IssuedLinkActivates(st: Store, h: Bcrypt.Hasher, bytes: seq<Tokens.byte>, tokenSalt: string,
                            email: string, issuedAt: Time, now: Time, device: Fingerprint.DeviceInfo,
                            entropy: seq<Tokens.byte>, sha256: string -> string, mail: MailStep)
    requires Bcrypt.Sound(h) && |bytes| == Tokens.DefaultTokenBytes
    requires FindUserByEmail(st.users, email).Some?
    requires FindTokenByDigest(st.tokens, Tokens.GenerateToken(bytes), h).None?
    requires issuedAt <= now <= issuedAt + VerificationTtl
    ensures var row := Issued(h, bytes, tokenSalt, email, issuedAt);
            var o := VerifyEmail(st.(tokens := st.tokens + [row]), Some(Tokens.GenerateToken(bytes)), now, h,
                                 device, entropy, sha256, mail);
            && ActivatedAt(o.store.users[FindUserByEmail(st.users, email).value], now)
            && row !in o.store.tokens
            && (o.reply == PostAuth || o.reply == VerificationFailed)
  {
    var row := Issued(h, bytes, tokenSalt, email, issuedAt);
    var link := Tokens.GenerateToken(bytes);
    assert |link| == 64;
    AppendedRowRedeemed(st, row, link, now, h, device, entropy, sha256, mail);
  }

  /** A row appended after every row the plaintext misses, naming an account and not
      yet expired, is the one the digest lookup redeems. */
  lemma AppendedRowRedeemed(st: Store, row: VerificationToken, link: string, now: Time, h: Bcrypt.Hasher,
                            device: Fingerprint.DeviceInfo, entropy: seq<Tokens.byte>,
                            sha256: string -> string, mail: MailStep)
    requires link != "" && Bcrypt.Verify(h, link, row.token)
    requires FindTokenByDigest(st.tokens, link, h).None?
    requires FindUserByEmail(st.users, row.identifier).Some? && !Tokens.IsTokenExpired(now, row.expires)
    ensures var o := VerifyEmail(st.(tokens := st.tokens + [row]), Some(link), now, h, device, entropy, sha256, mail);
            && ActivatedAt(o.store.users[FindUserByEmail(st.users, row.identifier).value], now)
            && row !in o.store.tokens
            && (o.reply == PostAuth || o.reply == VerificationFailed)
  {
    var issued := st.(tokens := st.tokens + [row]);
    FoundLast(st.tokens, row, link, h);
    assert issued.tokens[|st.tokens|] == row;
  }

  /** As written the welcome mail at line 72 throws, since lib/email/send.ts exports no
      `sendEmailWithLogging`: whatever link is followed, the answer is never the
      verified redirect and no session is created. */
  lemma WelcomeMailThrowsAsWritten(st: Store, token: Option<string>, now: Time, h: Bcrypt.Hasher,
                                   device: Fingerprint.DeviceInfo, entropy: seq<Tokens.byte>,
                                   sha256: string -> string)
    ensures var o := VerifyEmail(st, token, now, h, device, entropy, sha256, MailAsWritten);
            o.reply != PostAuth && o.store.sessions == st.sessions
  {
  }

  /** So a mailed link followed within the day, even under the digest lookup, activates
      the account and spends its record, yet answers `verification_failed` with no
      session. */
  lemma IssuedLinkFailsAfterActivatingAsWritten(st: Store, h: Bcrypt.Hasher, bytes: seq<Tokens.byte>, tokenSalt: string,
                                                email: string, issuedAt: Time, now: Time, device: Fingerprint.DeviceInfo,
                                                entropy: seq<Tokens.byte>, sha256: string -> string)
    requires Bcrypt.Sound(h) && |bytes| == Tokens.DefaultTokenBytes
    requires FindUserByEmail(st.users, email).Some?
    requires FindTokenByDigest(st.tokens, Tokens.GenerateToken(bytes), h).None?
    requires issuedAt <= now <= issuedAt + VerificationTtl
    ensures var row := Issued(h, bytes, tokenSalt, email, issuedAt);
            var o := VerifyEmail(st.(tokens := st.tokens + [row]), Some(Tokens.GenerateToken(bytes)), now, h,
                                 device, entropy, sha256, MailAsWritten);
            && ActivatedAt(o.store.users[FindUserByEmail(st.users, email).value], now)
            && row !in o.store.tokens
            && o.reply == VerificationFailed && o.store.sessions == st.sessions
  {
    var row := Issued(h, bytes, tokenSalt, email, issuedAt);
    var issued := st.(tokens := st.tokens + [row]);
    var link := Tokens.GenerateToken(bytes);
    IssuedLinkActivates(st, h, bytes, tokenSalt, email, issuedAt, now, device, entropy, sha256, MailAsWritten);
    WelcomeMailThrowsAsWritten(issued, Some(link), now, h, device, entropy, sha256);
  }

  /** A link that no stored row verifies is refused and changes nothing. */
  lemma UnmatchedLinkRefused(st: Store, link: string, now: Time, h: Bcrypt.Hasher, device: Fingerprint.DeviceInfo,
                             entropy: seq<Tokens.byte>, sha256: string -> string, mail: MailStep)
    requires forall j :: 0 <= j < |st.tokens| ==> !Bcrypt.Verify(h, link, st.tokens[j].token)
    ensures VerifyEmail(st, Some(link), now, h, device, entropy, sha256, mail) == Outcome(st, InvalidToken)
  {
  }

  /** The digest lookup finds an appended row when no earlier row verifies the plaintext. */
  lemma FoundLast(tokens: seq<VerificationToken>, row: VerificationToken, token: string, h: Bcrypt.Hasher)
    requires FindTokenByDigest(tokens, token, h).None? && Bcrypt.Verify(h, token, row.token)
    ensures FindTokenByDigest(tokens + [row], token, h) == Some(|tokens|)
  {
    var all := tokens + [row];
    assert all[|tokens|] == row;
    assert forall j :: 0 <= j < |tokens| ==> all[j] == tokens[j];
  }
}
